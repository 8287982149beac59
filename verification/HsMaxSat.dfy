/** Hitting-set MaxSAT with max-resolution and its dual. */
module HsMaxSat {
  import opened Formulas
  import opened Lists
  import opened Oracle
  import opened MaxResolution
  import opened HsBounds
  import opened HsCores
  import opened HsJournal
  import opened HsControl
  import opened HsRewriting

  // Every correction set costs at least the upper bound.
  ghost predicate CorrectionsOf(soft: set<Formula>, offset: nat, hi: nat, corrSets: seq<set<Formula>>) {
    forall C :: C in corrSets ==> C <= soft && |C| + offset >= hi
  }

  // The best model attains the upper bound; before there is one, nothing can cost more.
  ghost predicate BestModel(p: Problem, model: Option<Assignment>, hi: nat) {
    match model
    case Some(m) => Holds(p.hard, m) && Cost(p.soft, m) == hi
    case None => |p.soft| <= hi
  }

  // What holds between any two steps of the search.
  ghost predicate Consistent(p: Problem, soft: seq<Formula>, st: SoftState, coreSets: seq<set<Formula>>,
                             corrSets: seq<set<Formula>>, model: Option<Assignment>)
  {
    match st
    case SoftState(asserted, current, offset, _, hi, _) =>
      && p.soft == ToSet(soft)
      && Sound(p, st)
      && CoresOf(asserted, current, coreSets)
      && CorrectionsOf(current, offset, hi, corrSets)
      && BestModel(p, model, hi)
  }

  function Satisfied(fs: set<Formula>, a: Assignment): (r: set<Formula>)
    ensures r <= fs && forall f :: f in fs ==> (f in r <==> Eval(f, a))
  {
    set f | f in fs && Eval(f, a)
  }

  datatype RunResult = Finished | Stuck | OutOfSteps

  function Max(x: int, y: int): int {
    if x < y then y else x
  }

  function Min(x: int, y: int): int {
    if x < y then x else y
  }

  class HsMaxSat {
    const s: Solver
    const ctx: Context
    const picker: HsPicker
    const originalSoft: seq<Formula>
    ghost const problem: Problem

    var formulas: set<Formula>
    var offset: nat
    var model: Option<Assignment>
    var lo: int
    var hi: nat
    var coreSets: seq<set<Formula>>
    var corrSets: seq<set<Formula>>
    var smallSetSize: int
    var numMaxResFailures: nat
    var corrSetEnabled: bool

    ghost function State(): SoftState
      reads this, s`asserted, ctx
    {
      SoftState(s.asserted, formulas, offset, lo, hi, ctx.next)
    }

    ghost predicate Valid()
      reads this, s`asserted, ctx
    {
      Consistent(problem, originalSoft, State(), coreSets, corrSets, model)
    }

    ghost function Book(): Journal
      reads this, s`log
    {
      Journal(s.log, coreSets, corrSets, hi)
    }

    constructor (soft: seq<Formula>, solver: Solver, context: Context)
      requires AllBelow(solver.asserted, context.next) && AllBelow(soft, context.next)
      ensures s == solver && ctx == context && originalSoft == soft
      ensures problem == Problem(solver.asserted, ToSet(soft), context.next)
      ensures Valid()
      ensures formulas == ToSet(soft) && offset == 0 && lo == 0 && hi == |soft| && model == None
      ensures Choice() == INITIAL && Steady(Choice(), false)
      ensures fresh(picker) && picker.backoff == Backoff(0, 0, 6000)
    {
      s, ctx, originalSoft := solver, context, soft;
      picker := new HsPicker();
      problem := Problem(solver.asserted, ToSet(soft), context.next);
      formulas := set f | f in soft;
      offset, model := 0, None;
      lo, hi := 0, |soft|;
      coreSets, corrSets := [], [];
      smallSetSize, numMaxResFailures, corrSetEnabled := 6, 0, true;
      new;
      SoundStart(problem, hi, lo);
      ListedSize(soft);
    }

    /** Records a model: its correction set, and the model itself when it is no worse than the best one. */
    method Improve(newModel: Assignment) returns (improved: bool)
      requires Valid() && Holds(s.asserted, newModel)
      modifies this`corrSets, this`model, this`hi
      ensures Valid()
      ensures corrSets == old(corrSets) + [Falsified(formulas, newModel)]
      ensures hi == Min(old(hi), Cost(problem.soft, newModel))
      ensures Cost(problem.soft, newModel) <= old(hi) ==> model == Some(newModel)
      ensures Cost(problem.soft, newModel) > old(hi) ==> model == old(model)
      ensures improved <==> hi < old(hi)
    {
      var mss := Satisfied(formulas, newModel);
      var cs := formulas - mss;
      assert cs == Falsified(formulas, newModel);
      corrSets := corrSets + [cs];
      var origCs := set f | f in originalSoft && !Eval(f, newModel);
      assert origCs == Falsified(problem.soft, newModel);
      var cost := |origCs|;
      assert cost == |cs| + offset;
      if model == None {
        CostAtMost(problem.soft, newModel);
        model := Some(newModel);
      }
      if cost <= hi {
        model := Some(newModel);
      }
      if cost < hi {
        SoundSmallerHi(problem, State(), cost);
        hi := cost;
        return true;
      }
      return false;
    }

    // Tries to do without one member of a core; a model met is recorded.
    method ReduceTurn(list: seq<Formula>, i: nat) returns (list': seq<Formula>, undef: bool)
      requires Valid() && i < |list| && Distinct(list) && Refutes(s.asserted, ToSet(list))
      modifies this`corrSets, this`model, this`hi, s`log
      ensures Valid() && Learns(problem, formulas, old(Book()), Book())
      ensures Distinct(list') && Refutes(s.asserted, ToSet(list'))
      ensures list' == list || (|list'| < |list| && ToSet(list') <= ToSet(list))
      ensures undef ==> list' == list && Undecided(old(Book()), Book())
      ensures !undef && list' == list ==> !Refutes(s.asserted, ToSet(list) - {list[i]})
    {
      list', undef := list, false;
      var others := list[..i] + list[i + 1..];
      WithoutOne(list, i, others);
      var isSat := s.CheckTimed(ToSet(others));
      match isSat {
        case TimedUnsat(c) =>
          ListedSize(others);
          SubsetSize(c, ToSet(others));
          list' := ListOf(c);
          LearnsOther(problem, formulas, old(Book()), ToSet(others), isSat, Book());
        case TimedSat(m) =>
          var _ := Improve(m);
          LearnsModel(problem, formulas, old(Book()), ToSet(others), m, Book());
        case Unknown =>
          undef := true;
          LearnsOther(problem, formulas, old(Book()), ToSet(others), isSat, Book());
      }
    }

    /**
     Tries to drop members of a core one by one; models met on the way are recorded.  A core of more than four members
     comes back unchanged only when none of them is redundant, or some check was undecided.
     */
    method ReduceCore(core: set<Formula>) returns (reduced: set<Formula>)
      requires Valid() && Refutes(s.asserted, core)
      modifies this`corrSets, this`model, this`hi, s`log
      ensures Valid() && Learns(problem, formulas, old(Book()), Book())
      ensures reduced <= core && Refutes(s.asserted, reduced)
      ensures |core| <= 4 ==> reduced == core && Book() == old(Book())
      ensures |core| > 4 && reduced == core ==> Undecided(old(Book()), Book()) || Irreducible(s.asserted, core)
    {
      if |core| <= 4 {
        return core;
      }
      var i, numUndef := 0, 0;
      var list := ListOf(core);
      ghost var start, whole := Book(), list;
      while i < |list|
        invariant 0 <= i && 0 <= numUndef
        invariant Valid() && Reducing(problem, s.asserted, formulas, start, Book(), whole, Reduction(list, i, numUndef))
        decreases |list| - i
      {
        ghost var b, r := Book(), Reduction(list, i, numUndef);
        var undef;
        list, undef := ReduceTurn(list, i);
        ReduceNext(problem, s.asserted, formulas, start, b, Book(), whole, r, list, undef);
        i := i + 1;
        if undef {
          numUndef := numUndef + 1;
          if numUndef > 3 {
            break;
          }
        }
      }
      ReduceDone(problem, s.asserted, formulas, start, Book(), whole, core, Reduction(list, i, numUndef));
      return ToSet(list);
    }

    // Adds a core over the current soft constraints.
    method AddCore(core: set<Formula>)
      requires Valid()
      requires core != {} && core <= formulas && Refutes(s.asserted, core)
      modifies this`coreSets
      ensures Valid() && coreSets == old(coreSets) + [core]
    {
      coreSets := coreSets + [core];
    }

    // What a rotation learns from a core: the core itself when it is small, and a backbone literal.
    method RotateCore(unsatCore: set<Formula>, mss: set<Formula>, p: Formula, backbone2core: map<Formula, set<Formula>>)
      returns (backbone2core': map<Formula, set<Formula>>)
      requires Valid() && Satisfiable(s.asserted)
      requires mss <= formulas && p in formulas && unsatCore <= mss + backbone2core.Keys + {p}
      requires Refutes(s.asserted, unsatCore) && Backbones(s.asserted, mss, backbone2core)
      modifies this`coreSets
      ensures Valid() && Extends(old(Book()), Book())
      ensures var core := Expand(unsatCore, backbone2core);
        && coreSets == (if |core| < 20 then old(coreSets) + [core] else old(coreSets))
        && backbone2core' == backbone2core[Not(p) := core - {p}]
      ensures Backbones(s.asserted, mss, backbone2core')
      ensures RotatedOut(s.asserted, old(Book()), Book(), mss, p, backbone2core')
    {
      var core;
      core, backbone2core' := LearnCore(s, unsatCore, mss, p, backbone2core);
      RotatedOutBy(s.asserted, Book(), mss, p, backbone2core, core);
      if |core| < 20 {
        AddCore(core);
      }
    }

    // What local search learns from a core: the core itself, reduced, and a backbone literal.
    method LocalCore(unsatCore: set<Formula>, mss: set<Formula>, p: Formula, backbone2core: map<Formula, set<Formula>>,
                     ghost m: Assignment)
      returns (backbone2core': map<Formula, set<Formula>>, ghost core: set<Formula>)
      requires Valid() && Holds(s.asserted, m) && HoldsAll(mss, m)
      requires mss <= formulas && p in formulas && unsatCore <= mss + backbone2core.Keys + {p}
      requires Refutes(s.asserted, unsatCore) && Backbones(s.asserted, mss, backbone2core)
      modifies this`coreSets, this`corrSets, this`model, this`hi, s`log
      ensures Valid() && Learns(problem, formulas, old(Book()), Book())
      ensures core <= Expand(unsatCore, backbone2core) && coreSets == old(coreSets) + [core]
      ensures CoreAdded(old(Book()), Book(), mss, p)
      ensures backbone2core' == backbone2core[Not(p) := core - {p}] && Backbones(s.asserted, mss, backbone2core')
    {
      var expanded := ExpandCore(unsatCore, backbone2core);
      ExpandRefutes(s.asserted, unsatCore, mss, p, backbone2core);
      var reduced := ReduceCore(expanded);
      RefutesNonempty(s.asserted, reduced);
      LearnBackbone(s.asserted, reduced, p, mss, backbone2core);
      ghost var b := Book();
      AddCore(reduced);
      core := reduced;
      CoreKept(problem, s.asserted, formulas, old(Book()), b, mss, p, core, m);
      backbone2core' := backbone2core[Not(p) := reduced - {p}];
    }

    // Tries to add one formula: either there is a model with it, or its negation becomes a backbone literal.
    method RotateOne(p: Formula, mss: set<Formula>, backbone2core: map<Formula, set<Formula>>)
      returns (mss': set<Formula>, backbone2core': map<Formula, set<Formula>>, better: bool)
      requires Valid() && mss <= formulas && p in formulas - mss && Satisfiable(s.asserted)
      requires Backbones(s.asserted, mss, backbone2core)
      modifies this`coreSets, this`corrSets, this`model, this`hi, s`log
      ensures Valid() && Learns(problem, formulas, old(Book()), Book())
      ensures better <==> hi < old(hi)
      ensures Rotates(s.asserted, formulas, old(Book()), Book(), p, Rotation(mss, backbone2core),
                      Rotation(mss', backbone2core'))
    {
      mss', backbone2core', better := mss, backbone2core, false;
      ghost var b, r := Book(), Rotation(mss, backbone2core);
      var assumptions := mss + backbone2core.Keys + {p};
      var isSat := s.CheckTimed(assumptions);
      match isSat
      case TimedSat(mdl) =>
        mss' := mss + {p};
        better := Improve(mdl);
        LearnsModel(problem, formulas, b, assumptions, mdl, Book());
        RotatesIn(s.asserted, formulas, b, Book(), p, r, mdl);
      case TimedUnsat(unsatCore) =>
        ghost var k := Book();
        backbone2core' := RotateCore(unsatCore, mss, p, backbone2core);
        LearnsOther(problem, formulas, b, assumptions, isSat, Book());
        RotatesOut(s.asserted, formulas, b, k, Book(), p, r, Expand(unsatCore, backbone2core));
      case Unknown =>
        LearnsOther(problem, formulas, b, assumptions, isSat, Book());
    }

    // Grows a satisfiable subset, collecting cores and models.
    method Rotate(start: set<Formula>)
      returns (mss: set<Formula>, backbone2core: map<Formula, set<Formula>>, improved: bool)
      requires Valid() && start <= formulas && Satisfiable(s.asserted)
      modifies this`coreSets, this`corrSets, this`model, this`hi, s`log
      ensures Valid() && Learns(problem, formulas, old(Book()), Book())
      ensures improved <==> hi < old(hi)
      ensures Grown(s.asserted, formulas, old(Book()), Book(), start, mss) && Backbones(s.asserted, mss, backbone2core)
      ensures AllRotatedOut(s.asserted, formulas, old(Book()), Book(), mss, {}, backbone2core)
    {
      mss, backbone2core, improved := start, map[], false;
      var ps := formulas - mss;
      ghost var b0 := Book();
      while ps != {}
        invariant Valid() && Learns(problem, formulas, b0, Book())
        invariant improved <==> hi < b0.hi
        invariant Grown(s.asserted, formulas, b0, Book(), start, mss) && ps <= formulas - mss
        invariant Backbones(s.asserted, mss, backbone2core)
        invariant AllRotatedOut(s.asserted, formulas, b0, Book(), mss, ps, backbone2core)
        decreases ps
      {
        var p :| p in ps;
        ghost var b, r, open := Book(), Rotation(mss, backbone2core), ps;
        ps := ps - {p};
        var better;
        mss, backbone2core, better := RotateOne(p, mss, backbone2core);
        improved := improved || better;
        LearnsTrans(problem, formulas, b0, b, Book());
        OneRotated(s.asserted, formulas, b0, b, Book(), start, open, p, r, Rotation(mss, backbone2core));
      }
    }

    /**
     Grows a satisfiable subset to a maximal one unless a check is undecided, and rotates on; true when the upper bound
     has been lowered.
     */
    method TryRotate(start: set<Formula>) returns (improved: bool)
      requires Valid() && start <= formulas && Satisfiable(s.asserted)
      modifies this`coreSets, this`corrSets, this`model, this`hi, s`log
      ensures Valid() && Learns(problem, formulas, old(Book()), Book())
      ensures improved <==> hi < old(hi)
      ensures Explored(s.asserted, formulas, old(Book()), Book(), start)
      ensures improved ==> RotatedOn(s.asserted, formulas, old(Book()), Book(), start)
      decreases hi, 0
    {
      ghost var b0 := Book();
      var mss, backbone2core;
      mss, backbone2core, improved := Rotate(start);
      ghost var b := Book();
      RotationExplores(problem, s.asserted, formulas, b0, b, start, mss, backbone2core);
      if improved {
        MssRotate(mss, backbone2core);
        LearnsTrans(problem, formulas, b0, b, Book());
        ExploredOn(s.asserted, formulas, b0, b0, b, Book(), start);
        assert RotatedVia(s.asserted, formulas, b0, b, Book(), start, mss, backbone2core);
      }
    }

    // Retries without one of the formulas that occur in more than one stored core, until that lowers the bound.
    method MssRotate(mss: set<Formula>, backbone2core: map<Formula, set<Formula>>)
      requires Valid() && mss <= formulas && Satisfiable(s.asserted)
      requires Backbones(s.asserted, mss, backbone2core)
      modifies this`coreSets, this`corrSets, this`model, this`hi, s`log
      ensures Valid() && Learns(problem, formulas, old(Book()), Book())
      ensures Rotated(s.asserted, formulas, old(Book()), Book(), mss, backbone2core)
      decreases hi, 3
    {
      // the program asserts here that every stored core lies within mss
      assert forall n :: n in backbone2core ==> backbone2core[n] <= mss;
      RotateEach(mss, backbone2core);
    }

    // The loop over the formulas of the subset.
    method RotateEach(mss: set<Formula>, backbone2core: map<Formula, set<Formula>>)
      requires Valid() && mss <= formulas && Satisfiable(s.asserted)
      modifies this`coreSets, this`corrSets, this`model, this`hi, s`log
      ensures Valid() && Learns(problem, formulas, old(Book()), Book())
      ensures Rotated(s.asserted, formulas, old(Book()), Book(), mss, backbone2core)
      decreases hi, 2
    {
      var cs := mss;
      ghost var b0 := Book();
      while cs != {}
        invariant Valid() && Learns(problem, formulas, b0, Book()) && hi == b0.hi
        invariant cs <= mss && RotatedBut(s.asserted, formulas, b0, Book(), mss, backbone2core, cs)
        decreases cs
      {
        var c :| c in cs;
        ghost var b := Book();
        var better := RotateWithout(c, mss, backbone2core, b0);
        if better {
          return;
        }
        OneMoreRotated(s.asserted, formulas, b0, b, Book(), mss, backbone2core, cs, c);
        cs := cs - {c};
      }
      AllRotated(s.asserted, formulas, b0, Book(), mss, backbone2core, cs);
    }

    // One turn of it.
    method RotateWithout(c: Formula, mss: set<Formula>, backbone2core: map<Formula, set<Formula>>, ghost b0: Journal)
      returns (better: bool)
      requires Valid() && mss <= formulas && Satisfiable(s.asserted)
      requires Learns(problem, formulas, b0, Book())
      modifies this`coreSets, this`corrSets, this`model, this`hi, s`log
      ensures Valid() && Extends(old(Book()), Book()) && Learns(problem, formulas, b0, Book())
      ensures better <==> hi < old(hi)
      ensures Occurrences(backbone2core, c) > 1 ==> Explored(s.asserted, formulas, old(Book()), Book(), mss - {c})
      decreases hi, 1
    {
      better := false;
      if Occurrences(backbone2core, c) > 1 {
        ghost var b := Book();
        better := TryRotate(mss - {c});
        LearnsTrans(problem, formulas, b0, b, Book());
      }
    }

    // What local search does with a model: record it, and rotate when that lowers the upper bound.
    method LocalModel(mdl: Assignment, mss: set<Formula>, backbone2core: map<Formula, set<Formula>>)
      requires Valid() && Holds(s.asserted, mdl)
      requires mss <= formulas && Backbones(s.asserted, mss, backbone2core)
      modifies this`coreSets, this`corrSets, this`model, this`hi, s`log
      ensures Valid() && Learns(problem, formulas, old(Book()), Book())
      ensures Noted(problem, formulas, old(Book()), Book(), mdl)
      ensures var noted := Improved(problem, formulas, old(Book()), mdl);
        if Cost(problem.soft, mdl) < old(hi) then Rotated(s.asserted, formulas, noted, Book(), mss, backbone2core)
        else Book() == noted
    {
      ghost var b0 := Book();
      var better := Improve(mdl);
      ghost var b := Book();
      ImprovedLearns(problem, formulas, b0, mdl);
      if better {
        MssRotate(mss, backbone2core);
        LearnsTrans(problem, formulas, b0, b, Book());
        NotedOn(problem, formulas, b0, b0, b, Book(), mdl);
      }
    }

    // Tries one formula: `rs` is what can be added to the subset, unless a core keeps the formula out or it stays open.
    method LocalOne(p: Formula, mss: set<Formula>, qs: set<Formula>, backbone2core: map<Formula, set<Formula>>,
                    ghost m: Assignment)
      returns (rs: set<Formula>, backbone2core': map<Formula, set<Formula>>, undetermined: bool)
      requires Valid() && Holds(s.asserted, m) && HoldsAll(mss, m)
      requires mss <= formulas && p in formulas && qs <= formulas
      requires Backbones(s.asserted, mss, backbone2core)
      modifies this`coreSets, this`corrSets, this`model, this`hi, s`log
      ensures Valid() && Learns(problem, formulas, old(Book()), Book())
      ensures Backbones(s.asserted, mss + rs, backbone2core')
      ensures Tried(s.asserted, old(Book()), Book(), Frontier(mss, {}, qs, backbone2core), p, rs, undetermined)
    {
      rs, backbone2core', undetermined := {}, backbone2core, false;
      ghost var b := Book();
      var assumptions := mss + backbone2core.Keys + {p};
      var isSat := s.CheckTimed(assumptions);
      ghost var k := Book();
      match isSat
      case TimedSat(mdl) =>
        rs := {p} + Satisfied(qs, mdl);
        GrowBackbones(s.asserted, mss, mss + rs, backbone2core);
        LocalModel(mdl, mss + rs, backbone2core);
        LearnsNoted(problem, formulas, b, assumptions, mdl, Book());
      case TimedUnsat(unsatCore) =>
        ghost var core;
        backbone2core', core := LocalCore(unsatCore, mss, p, backbone2core, m);
        LearnsOther(problem, formulas, b, assumptions, isSat, Book());
        CoreAddedFrom(b, k, Book(), mss, p);
        assert mss + rs == mss;
      case Unknown =>
        undetermined := true;
        LearnsOther(problem, formulas, b, assumptions, isSat, Book());
        assert mss + rs == mss;
    }

    // One turn of the loop over the formulas to be tried.
    method LocalTurn(p: Formula, mss: set<Formula>, ps: set<Formula>, qs: set<Formula>,
                     backbone2core: map<Formula, set<Formula>>, ghost b0: Journal, ghost start: set<Formula>,
                     ghost m: Assignment)
      returns (mss': set<Formula>, ps': set<Formula>, qs': set<Formula>, backbone2core': map<Formula, set<Formula>>,
               ghost m': Assignment)
      requires Valid() && p in ps
      requires OnFrontier(problem, s.asserted, formulas, b0, Book(), start, Frontier(mss, ps, qs, backbone2core), m)
      modifies this`coreSets, this`corrSets, this`model, this`hi, s`log
      ensures Valid() && ps' < ps
      ensures OnFrontier(problem, s.asserted, formulas, b0, Book(), start,
                         Frontier(mss', ps', qs', backbone2core'), m')
    {
      ghost var b := Book();
      var rs, undetermined;
      rs, backbone2core', undetermined := LocalOne(p, mss, qs, backbone2core, m);
      mss', ps', qs' := mss + rs, ps - {p} - rs, qs - rs;
      if undetermined {
        qs' := qs' + {p};
      }
      m' := FrontierNext(problem, s.asserted, formulas, b0, b, Book(), start, Frontier(mss, ps, qs, backbone2core), m,
                         p, rs, undetermined, Frontier(mss', ps', qs', backbone2core'));
    }

    /**
     Extends the soft constraints a model satisfies as far as they are satisfiable together.  Every model answered is
     recorded, and for everything left out a core is added, except for what stays open after an undecided check.  So
     unless a check is undecided, a minimal correction set is reached.
     */
    method LocalMss(newModel: Assignment) returns (ghost reached: set<Formula>, ghost open: set<Formula>)
      requires Valid() && Holds(s.asserted, newModel)
      modifies this`coreSets, this`corrSets, this`model, this`hi, s`log
      ensures Valid() && Learns(problem, formulas, old(Book()), Book())
      ensures Searched(s.asserted, formulas, old(Book()), Book(), Satisfied(formulas, newModel), reached, open)
      ensures open != {} ==> Undecided(old(Book()), Book())
      ensures LocallyMinimal(s.asserted, formulas, old(Book()), Book(), Satisfied(formulas, newModel))
    {
      var mss := Satisfied(formulas, newModel);
      var ps := formulas - mss;
      var qs: set<Formula> := {};
      var backbone2core: map<Formula, set<Formula>> := map[];
      ghost var b0, start, m := Book(), mss, newModel;
      FrontierStart(problem, s.asserted, formulas, b0, start, m);
      while ps != {}
        invariant Valid()
        invariant OnFrontier(problem, s.asserted, formulas, b0, Book(), start, Frontier(mss, ps, qs, backbone2core), m)
        decreases ps
      {
        var p :| p in ps;
        mss, ps, qs, backbone2core, m := LocalTurn(p, mss, ps, qs, backbone2core, b0, start, m);
      }
      reached, open := mss, qs;
      assert ps + qs == qs;
      if qs == {} {
        SearchEnds(problem, s.asserted, formulas, b0, Book(), start, mss);
      }
    }

    // The assertions alone are contradictory: the remaining cost can be bounded by anything.
    method CloseGap()
      requires Valid() && Refutes(s.asserted, {})
      modifies this`lo
      ensures Valid() && lo + offset == hi
    {
      forall a | Holds(s.asserted, a)
        ensures false
      {
        assert HoldsAll({}, a);
      }
      SoundNewLo(problem, State(), hi - offset);
      lo := hi - offset;
    }

    // Extends a hitting set by a member of each of the given cores.
    method ExtendHittingSet(hs: set<Formula>, cores: seq<set<Formula>>, from: nat) returns (hs': set<Formula>)
      requires from < |cores|
      requires forall i :: from <= i < |cores| ==> cores[i] != {} && cores[i] <= formulas - hs
      ensures hs <= hs' && formulas - hs' < formulas - hs
      ensures forall i :: from <= i < |cores| ==> exists f :: f in cores[i] && f in hs'
    {
      hs' := hs;
      var i := from;
      while i < |cores|
        invariant from <= i <= |cores|
        invariant hs <= hs'
        invariant i > from ==> formulas - hs' < formulas - hs
        invariant forall k :: from <= k < i ==> exists f :: f in cores[k] && f in hs'
      {
        var h :| h in cores[i];
        hs' := hs' + {h};
        assert h in formulas - hs;
        i := i + 1;
      }
    }

    // A model of what the hitting set leaves over: record it, and let the hitting set hit the newest cores.
    method HitNewCores(m: Assignment, hs: set<Formula>, cores: seq<set<Formula>>, numCores: nat,
                       ghost core0: set<Formula>, ghost remaining: set<Formula>, ghost b0: Journal, ghost b: Journal)
      returns (hs': set<Formula>)
      requires Valid() && Holds(s.asserted, m) && numCores < |cores|
      requires Collecting(s.asserted, formulas, core0, Collection(hs, remaining, cores, numCores))
      requires Learns(problem, formulas, b0, b) && Book() == Asked(b, Query(remaining, TimedSat(m)))
      modifies this`corrSets, this`model, this`hi
      ensures Valid() && Learns(problem, formulas, b0, Book()) && formulas - hs' < formulas - hs
      ensures Collecting(s.asserted, formulas, core0, Collection(hs', formulas - hs', cores, |cores|))
    {
      var _ := Improve(m);
      forall i | numCores <= i < |cores|
        ensures cores[i] != {}
      {
        assert cores[i] in cores;
      }
      hs' := ExtendHittingSet(hs, cores, numCores);
      HitsAll(hs, hs', cores, numCores);
      CollectHit(s.asserted, formulas, core0, Collection(hs, remaining, cores, numCores), hs');
      LearnsModel(problem, formulas, b, remaining, m, Book());
      LearnsTrans(problem, formulas, b0, b, Book());
    }

    // Adds core after core to the given one until a hitting set of them leaves the rest satisfiable; `closed` when the
    // assertions are not.
    method CollectCores(hs0: set<Formula>, core0: set<Formula>) returns (cores: seq<set<Formula>>, closed: bool)
      requires Valid() && core0 != {} && core0 <= formulas - hs0 && Refutes(s.asserted, core0)
      modifies this`coreSets, this`corrSets, this`model, this`hi, this`lo, s`log
      ensures Valid() && Extends(old(Book()), Book())
      ensures closed ==> lo + offset == hi && Learns(problem, formulas, old(Book()), Book())
      ensures !closed ==> lo == old(lo) && cores != [] && cores[0] == core0 && CoresOf(s.asserted, formulas, cores)
      ensures !closed ==> Collected(problem, s.asserted, formulas, old(Book()), Book(), cores)
    {
      var hs, numCores: nat := hs0, 0;
      var remaining := formulas - hs;
      cores, closed := [core0], false;
      CollectFirst(s.asserted, formulas, hs, core0);
      ghost var b0 := Book();
      while true
        invariant Valid() && lo == old(lo) && Learns(problem, formulas, b0, Book())
        invariant Collecting(s.asserted, formulas, core0, Collection(hs, remaining, cores, numCores))
        decreases formulas - hs, remaining
      {
        ghost var b := Book();
        var isSat := s.CheckTimed(remaining);
        match isSat
        case TimedUnsat(unsatCore) =>
          var core := NextCore(unsatCore, remaining, b0, b);
          if core == {} {
            CloseGap();
            closed := true;
            return;
          }
          var h :| h in core;
          CollectOne(s.asserted, formulas, core0, Collection(hs, remaining, cores, numCores), core, h);
          cores := cores + [core];
          remaining := remaining - {h};
        case TimedSat(m) =>
          if numCores == |cores| {
            AllHit(s.asserted, formulas, core0, Collection(hs, remaining, cores, numCores));
            SearchLocally(m, hs, cores, b0, b);
            return;
          }
          hs := HitNewCores(m, hs, cores, numCores, core0, remaining, b0, b);
          remaining := formulas - hs;
          numCores := |cores|;
        case Unknown =>
          LearnsOther(problem, formulas, b, remaining, isSat, Book());
          LearnsTrans(problem, formulas, b0, b, Book());
          UndecidedOn(b0, b, Book(), Book());
          return;
      }
    }

    // The core of an unsatisfiable check, reduced.
    method NextCore(unsatCore: set<Formula>, ghost assumptions: set<Formula>, ghost b0: Journal, ghost b: Journal)
      returns (core: set<Formula>)
      requires Valid() && Refutes(s.asserted, unsatCore)
      requires Learns(problem, formulas, b0, b) && Book() == Asked(b, Query(assumptions, TimedUnsat(unsatCore)))
      modifies this`corrSets, this`model, this`hi, s`log
      ensures Valid() && Learns(problem, formulas, b0, Book())
      ensures core <= unsatCore && Refutes(s.asserted, core)
    {
      core := ReduceCore(unsatCore);
      LearnsOther(problem, formulas, b, assumptions, TimedUnsat(unsatCore), Book());
      LearnsTrans(problem, formulas, b0, b, Book());
    }

    // Local search from a model of everything outside a hitting set of the cores collected.
    method SearchLocally(m: Assignment, ghost hs: set<Formula>, ghost cores: seq<set<Formula>>, ghost b0: Journal,
                         ghost b: Journal)
      requires Valid() && Holds(s.asserted, m) && HoldsAll(formulas - hs, m) && Hits(hs, cores)
      requires Learns(problem, formulas, b0, b) && Book() == Asked(b, Query(formulas - hs, TimedSat(m)))
      modifies this`coreSets, this`corrSets, this`model, this`hi, s`log
      ensures Valid() && Extends(b0, Book())
      ensures Collected(problem, s.asserted, formulas, b0, Book(), cores)
    {
      ghost var reached, open := LocalMss(m);
      assert Satisfied(formulas, m) == formulas - Falsified(formulas, m);
      assert LocalEnd(problem, s.asserted, formulas, b0, b, Book(), hs, m);
      assert EndsLocally(problem, s.asserted, formulas, b0, Book(), hs);
    }

    /** Collects disjoint enough cores until the rest is satisfiable, then improves on that model. */
    method GetCores(hs: set<Formula>, unsatCore: set<Formula>)
      requires Valid() && unsatCore <= formulas - hs && Refutes(s.asserted, unsatCore)
      modifies this`coreSets, this`corrSets, this`model, this`hi, this`lo, s`log
      ensures Valid() && Extends(old(Book()), Book())
      ensures lo + offset == hi || (lo == old(lo) && |coreSets| > |old(coreSets)|)
      ensures lo + offset == hi || Gathered(problem, s.asserted, formulas, old(Book()), Book(), unsatCore)
    {
      ghost var b0 := Book();
      var core := ReduceCore(unsatCore);
      if core == {} {
        CloseGap();
        return;
      }
      ghost var b := Book();
      var cores, closed := CollectCores(hs, core);
      if !closed {
        ghost var found := coreSets;
        CollectedFrom(problem, s.asserted, formulas, b0, b, Book(), cores);
        coreSets := coreSets + cores;
        assert Book().(cores := found) == Journal(s.log, found, corrSets, hi);
        assert GatheredAs(problem, s.asserted, formulas, b0, Book(), unsatCore, found, cores);
      }
    }

    /** Chooses a hitting set of the cores; the lower bound may rise to the size every hitting set has. */
    method PickHs() returns (hs: set<Formula>)
      requires Valid()
      modifies this`lo, picker
      ensures Valid() && lo >= old(lo)
      ensures hs <= formulas && Hits(hs, coreSets)
      ensures Picks(coreSets, old(picker.backoff), old(lo), picker.calls - old(picker.calls), picker.last,
                    picker.backoff, lo, hs)
    {
      var lower;
      hs, lower := picker.PickHs(formulas, coreSets, lo);
      if picker.calls > old(picker.calls) {
        HittingSetLowerBound(State(), coreSets, picker.last.lower);
        SoundNewLo(problem, State(), lower);
      }
      lo := lower;
    }

    // Max-resolution

    function Choice(): Control
      reads this
    {
      Control(coreSets, corrSets, smallSetSize, numMaxResFailures, corrSetEnabled)
    }

    predicate HasManySmallSets(sets: seq<set<Formula>>)
      reads this
    {
      HasSmall(sets, smallSetSize)
    }

    // Relaxes one core, the one after n others; the offset and the lower bound are not adjusted yet.
    method RelaxOne(core: set<Formula>, ghost n: nat) returns (ghost list: seq<Formula>)
      requires core != {} && core <= formulas && Refutes(s.asserted, core)
      requires Sound(problem, State().(offset := offset + n, lo := lo - n))
      modifies s`asserted, ctx, this`formulas, this`smallSetSize
      ensures Sound(problem, State().(offset := offset + n + 1, lo := lo - n - 1))
      ensures IsListOf(list, core) && RelaxesTo(old(State()).(offset := offset + n, lo := lo - n), list,
                                                State().(offset := offset + n + 1, lo := lo - n - 1))
      ensures old(s.asserted) <= s.asserted && old(formulas) - core <= formulas
      ensures smallSetSize == NextSize(old(smallSetSize), |core|)
    {
      smallSetSize := Max(4, Min(smallSetSize, |core| - 2));
      var members := ListOf(core);
      list := members;
      ghost var st := State().(offset := offset + n, lo := lo - n);
      SoundRelax(problem, st, list);
      formulas := RelaxCore(ctx, s, members, formulas);
      assert State().(offset := offset + n + 1, lo := lo - n - 1) == AfterRelax(st, list);
    }

    // Relaxes a family of disjoint cores one after the other.
    method RelaxCores(cores: seq<set<Formula>>)
      requires Valid()
      requires PairwiseDisjoint(cores) && CoresOf(s.asserted, formulas, cores)
      modifies s`asserted, ctx, this`formulas, this`smallSetSize
      ensures Sound(problem, State().(offset := offset + |cores|, lo := lo - |cores|))
      ensures RelaxedTo(old(State()), cores, State().(offset := offset + |cores|, lo := lo - |cores|))
      ensures smallSetSize == SizeAfter(old(smallSetSize), cores)
    {
      var i := 0;
      ghost var st0, size0 := State(), smallSetSize;
      assert cores[i..] == cores;
      while i < |cores|
        invariant i <= |cores|
        invariant Relaxing(problem, st0, size0, cores, i, State().(offset := offset + i, lo := lo - i), smallSetSize)
      {
        ghost var st, size := State().(offset := offset + i, lo := lo - i), smallSetSize;
        RelaxingNow(problem, st0, size0, cores, i, st, size);
        ghost var list := RelaxOne(cores[i], i);
        RelaxingNext(problem, st0, size0, cores, i, st, size, list,
                     State().(offset := offset + i + 1, lo := lo - i - 1), smallSetSize);
        i := i + 1;
      }
      assert cores[..i] == cores;
    }

    // Restricts the soft constraints to one correction set.
    method RestrictOne(corrSet: set<Formula>) returns (ghost list: seq<Formula>)
      requires Sound(problem, State()) && corrSet <= formulas && |corrSet| + offset >= hi
      modifies s`asserted, ctx, this`formulas
      ensures Sound(problem, State()) && IsListOf(list, corrSet) && RestrictsTo(old(State()), list, State())
      ensures old(formulas) - corrSet <= formulas
    {
      var members := ListOf(corrSet);
      list := members;
      ghost var st := State();
      SoundRestrict(problem, st, list);
      formulas := RestrictCs(ctx, s, members, formulas);
      s.Assert(OrAll(members));
      assert State() == AfterRestrict(st, list);
    }

    /** Restricts the soft constraints to a family of disjoint correction sets one after the other. */
    method RestrictSets(sets: seq<set<Formula>>)
      requires Valid()
      requires PairwiseDisjoint(sets) && CorrectionsOf(formulas, offset, hi, sets)
      modifies s`asserted, ctx, this`formulas
      ensures Sound(problem, State()) && RestrictedTo(old(State()), sets, State())
    {
      var i := 0;
      ghost var st0 := State();
      while i < |sets|
        invariant i <= |sets|
        invariant Sound(problem, State()) && RestrictedTo(st0, sets[..i], State())
        invariant CorrectionsOf(formulas, offset, hi, sets[i..])
      {
        assert sets[i] == sets[i..][0] && sets[i] in sets[i..];
        ghost var st := State();
        ghost var list := RestrictOne(sets[i]);
        RestrictedOneMore(st0, sets, i, st, list, State());
        DisjointSetsLeft(sets, i, st.soft, formulas, offset, hi);
        i := i + 1;
      }
      assert sets[..i] == sets;
    }

    method ReinitSoft(numCoresRelaxed: nat)
      requires problem.soft == ToSet(originalSoft) && BestModel(problem, model, hi)
      requires Sound(problem, State().(offset := offset + numCoresRelaxed, lo := lo - numCoresRelaxed))
      modifies this`offset, this`lo, this`coreSets, this`corrSets
      ensures Valid()
      ensures offset == old(offset) + numCoresRelaxed && lo == old(lo) - numCoresRelaxed
      ensures coreSets == [] && corrSets == []
    {
      offset := offset + numCoresRelaxed;
      coreSets, corrSets := [], [];
      lo := lo - numCoresRelaxed;
    }

    method RelaxSmallCores()
      requires Valid() && coreSets != []
      modifies s`asserted, ctx, this`formulas, this`smallSetSize, this`offset, this`lo, this`coreSets, this`corrSets
      ensures Valid() && lo + offset == old(lo + offset) && offset > old(offset)
      ensures coreSets == [] && corrSets == [] && smallSetSize >= 4
      ensures RelaxedSmall(old(coreSets), old(smallSetSize), old(State()), smallSetSize, State())
    {
      var cores := GetSmallDisjointSets(coreSets);
      assert CoresOf(s.asserted, formulas, cores);
      RelaxCores(cores);
      ReinitSoft(|cores|);
    }

    method RestrictSmallSets()
      requires Valid() && corrSets != []
      modifies s`asserted, ctx, this`formulas, this`offset, this`lo, this`coreSets, this`corrSets
      ensures Valid() && lo == old(lo) && offset == old(offset)
      ensures coreSets == [] && corrSets == [] && RestrictedSmall(old(corrSets), old(State()), State())
    {
      var cs := GetSmallDisjointSets(corrSets);
      assert CorrectionsOf(formulas, offset, hi, cs);
      RestrictSets(cs);
      ReinitSoft(0);
    }

    /**
     Rewrites the soft constraints by max-resolution or its dual, when there are small enough sets to rewrite.
     The sum of lower bound and offset does not change.  It is stuck, with an error for the smallest of no
     sizes, when it is to relax cores and there is none.
     */
    method Maxres() returns (stuck: bool)
      requires Valid()
      modifies this, s`asserted, ctx
      ensures stuck <==> IsStuck(old(Choice()))
      ensures !stuck ==> Rewrites(old(Choice()), Choice())
      ensures !stuck ==> Resolved(old(Choice()), old(State()), Choice(), State())
      ensures stuck ==> s.asserted == old(s.asserted) && formulas == old(formulas) && NothingToRelax(Choice())
      ensures Valid()
      ensures hi == old(hi) && model == old(model) && lo + offset == old(lo + offset) && offset >= old(offset)
    {
      stuck := false;
      if HasManySmallSets(coreSets) || (!corrSetEnabled && !HasManySmallSets(corrSets) && numMaxResFailures > 0) {
        numMaxResFailures := 0;
        if |coreSets| == 0 {
          stuck := true;
        } else {
          RelaxSmallCores();
          corrSetEnabled := true;
        }
      } else if corrSetEnabled && HasManySmallSets(corrSets) {
        numMaxResFailures := 0;
        RestrictSmallSets();
        corrSetEnabled := false;
      } else {
        numMaxResFailures := numMaxResFailures + 1;
        if numMaxResFailures > 3 {
          numMaxResFailures := 0;
          smallSetSize := smallSetSize + 100;
        }
      }
    }

    // What a step does with the answer: a model is recorded, a core leads to more cores or closes the bounds.
    method Respond(hs: set<Formula>, isSat: TimedAnswer, ghost b: Journal)
      requires Valid() && CorrectTimedAnswer(s.asserted, formulas - hs, isSat)
      requires Book() == Asked(b, Query(formulas - hs, isSat))
      modifies this`coreSets, this`corrSets, this`model, this`hi, this`lo, s`log
      ensures Valid() && Extends(old(Book()), Book())
      ensures lo == old(lo) || lo + offset == hi
      ensures Responded(problem, s.asserted, formulas, b, Query(formulas - hs, isSat), Book(), lo + offset == hi)
    {
      match isSat
      case TimedSat(m) =>
        var _ := Improve(m);
      case TimedUnsat(core) =>
        GetCores(hs, core);
      case Unknown =>
    }

    // Picks a hitting set and checks the rest.
    method CheckRest() returns (ghost hs: set<Formula>, ghost q: Query, ghost found: Found)
      requires Valid()
      modifies this`coreSets, this`corrSets, this`model, this`hi, this`lo, s`log, picker
      ensures Valid() && Extends(Asked(old(Book()), q), Book())
      ensures hs <= formulas && Hits(hs, old(coreSets)) && q.assumptions == formulas - hs
      ensures CorrectTimedAnswer(s.asserted, q.assumptions, q.answer)
      ensures lo + offset == hi || Picks(old(coreSets), old(picker.backoff), old(lo), picker.calls - old(picker.calls),
                                         picker.last, picker.backoff, lo, hs)
      ensures Responded(problem, s.asserted, formulas, old(Book()), q, Book(), lo + offset == hi)
      ensures Choice() == Collect(old(Choice()), found) && Finds(formulas, old(Choice()), q, found, lo + offset >= hi)
    {
      ghost var b, c := Book(), Choice();
      var hit := PickHs();
      var isSat := s.CheckTimed(formulas - hit);
      hs, q := hit, Query(formulas - hit, isSat);
      Respond(hit, isSat, b);
      ExtendsTrans(b, Asked(b, q), Book());
      CheckFound(problem, s.asserted, formulas, b, q, Book(), lo + offset == hi, c, Choice());
      found := Difference(c, Choice());
    }

    method Step() returns (stuck: bool, ghost q: Query, ghost found: Found)
      requires Valid()
      modifies this, s, ctx, picker
      ensures Valid() && hi <= old(hi) && offset >= old(offset)
      ensures old(s.log) + [q] <= s.log && ChecksRest(old(formulas), old(coreSets), q)
      ensures q.answer.TimedSat? ==> hi == Min(old(hi), Cost(problem.soft, q.answer.model))
      ensures Finds(old(formulas), old(Choice()), q, found, lo + offset >= hi)
      ensures stuck <==> IsStuck(Collect(old(Choice()), found))
      ensures stuck ==> NothingToRelax(Choice())
      ensures !stuck ==> Rewrites(Collect(old(Choice()), found), Choice())
      ensures !stuck ==> Resolved(Collect(old(Choice()), found),
                                  old(State()).(lo := lo + offset - old(offset), hi := hi), Choice(), State())
    {
      ghost var hs;
      hs, q, found := CheckRest();
      stuck := Maxres();
    }

    // One turn of the main loop; `marks` are the places of the checks that open the steps.
    method Turn(ghost start: nat, ghost marks: seq<nat>) returns (stuck: bool, ghost marks': seq<nat>)
      requires Valid() && Marked(problem, start, Course(s.log, marks, hi))
      modifies this, s, ctx, picker
      ensures Valid() && hi <= old(hi) && |marks'| == |marks| + 1 && (stuck ==> NothingToRelax(Choice()))
      ensures Marked(problem, start, Course(s.log, marks', hi))
      ensures AllDecided(s.log, marks') ==> AllDecided(old(s.log), marks)
      ensures old(Steady(Choice(), false)) && AllDecided(s.log, marks') ==>
        !stuck && Steady(Choice(), lo + offset >= hi)
    {
      ghost var before, log, hi0 := Choice(), s.log, hi;
      ghost var q, found;
      stuck, q, found := Step();
      marks' := marks + [|log|];
      StepMarked(problem, start, Course(log, marks, hi0), q, Course(s.log, marks', hi));
      if Steady(before, false) && !q.answer.Unknown? {
        DecidedStepGoesOn(before, found, lo + offset >= hi, Choice());
      }
    }

    /**
     The main loop, cut off after a number of steps.  When it finishes on satisfiable hard constraints, the upper
     bound is the least number of distinct original soft constraints that have to be falsified.  It runs out of steps
     only after making all of them, and gets stuck from the start only after a check of its own has been left undecided.
     `marks` are the places of these checks among the solver's answers; a model answered there bounds the upper bound.
     */
    method Run(maxSteps: nat) returns (result: RunResult, ghost marks: seq<nat>)
      requires Valid()
      modifies this, s, ctx, picker
      ensures Valid() && hi <= old(hi)
      ensures Marked(problem, |old(s.log)|, Course(s.log, marks, hi)) && |marks| <= maxSteps
      ensures result == Finished ==> lo + offset >= hi
      ensures result == Finished && Satisfiable(problem.hard) ==> IsMinCost(problem, hi)
      ensures result == OutOfSteps ==> lo + offset < hi && |marks| == maxSteps
      ensures result == Stuck ==> marks != [] && NothingToRelax(Choice())
      ensures old(Steady(Choice(), false)) && AllDecided(s.log, marks) ==> result != Stuck
    {
      var steps := 0;
      marks := [];
      while lo + offset < hi
        invariant Valid() && hi <= old(hi)
        invariant Marked(problem, |old(s.log)|, Course(s.log, marks, hi)) && |marks| == steps <= maxSteps
        invariant old(Steady(Choice(), false)) && AllDecided(s.log, marks) ==> Steady(Choice(), lo + offset >= hi)
        decreases maxSteps - steps
      {
        if steps >= maxSteps {
          return OutOfSteps, marks;
        }
        steps := steps + 1;
        var stuck;
        stuck, marks := Turn(|old(s.log)|, marks);
        if stuck {
          return Stuck, marks;
        }
      }
      if Satisfiable(problem.hard) {
        FinishedOptimal(problem, State(), model);
      }
      return Finished, marks;
    }
  }

  // A check of everything outside a hitting set of the cores.
  ghost predicate ChecksRest(formulas: set<Formula>, coreSets: seq<set<Formula>>, q: Query) {
    exists hs :: hs <= formulas && Hits(hs, coreSets) && q.assumptions == formulas - hs
  }

  // What a check adds to the sets: for a model its correction set, for an undecided check nothing.
  ghost predicate Finds(formulas: set<Formula>, c: Control, q: Query, found: Found, closed: bool) {
    match q.answer
    case TimedSat(m) => found == Found([], [Falsified(formulas, m)]) && Decides(c, found, closed)
    case TimedUnsat(_) => Decides(c, found, closed) && (closed || found.cores != [])
    case Unknown => found == NOTHING
  }

  lemma CheckFound(p: Problem, asserted: seq<Formula>, soft: set<Formula>, j: Journal, q: Query, j': Journal,
                   closed: bool, c: Control, c': Control)
    requires Responded(p, asserted, soft, j, q, j', closed) && Extends(j, j')
    requires CorrectTimedAnswer(asserted, q.assumptions, q.answer) && (j.cores == [] ==> q.assumptions == soft)
    requires c.cores == j.cores && c.corrections == j.corrections
    requires c' == c.(cores := j'.cores, corrections := j'.corrections)
    ensures c' == Collect(c, Difference(c, c')) && Finds(soft, c, q, Difference(c, c'), closed)
  {
    if q.answer.TimedSat? && j.cores == [] {
      assert Falsified(soft, q.answer.model) == {};
    }
    FoundByCheck(c, c', closed, q.answer.Unknown?);
    assert Difference(c, c').corrections == j'.corrections[|j.corrections|..];
  }

  // The answers of a run, the places of the checks that open its steps, and the upper bound.
  datatype Course = Course(log: seq<Query>, marks: seq<nat>, hi: nat)

  // The first check comes right at the start, and no model answered at these places is cheaper than the upper bound.
  ghost predicate Marked(p: Problem, start: nat, c: Course) {
    match c
    case Course(log, marks, hi) =>
      && (if marks == [] then |log| == start else marks[0] == start)
      && (forall i :: 0 <= i < |marks| ==> start <= marks[i] < |log|)
      && (forall i, j :: 0 <= i < j < |marks| ==> marks[i] < marks[j])
      && (forall i :: 0 <= i < |marks| && log[marks[i]].answer.TimedSat? ==>
            hi <= Cost(p.soft, log[marks[i]].answer.model))
  }

  ghost predicate AllDecided(log: seq<Query>, marks: seq<nat>) {
    forall i :: 0 <= i < |marks| && marks[i] < |log| ==> !log[marks[i]].answer.Unknown?
  }

  lemma StepMarked(p: Problem, start: nat, c: Course, q: Query, c': Course)
    requires Marked(p, start, c) && c.log + [q] <= c'.log && c'.marks == c.marks + [|c.log|] && c'.hi <= c.hi
    requires q.answer.TimedSat? ==> c'.hi <= Cost(p.soft, q.answer.model)
    ensures Marked(p, start, c')
    ensures AllDecided(c'.log, c'.marks) <==> AllDecided(c.log, c.marks) && !q.answer.Unknown?
  {
    assert c'.log[|c.log|] == (c.log + [q])[|c.log|] == q;
    forall i | 0 <= i < |c.marks|
      ensures c'.marks[i] == c.marks[i] && c'.log[c.marks[i]] == c.log[c.marks[i]]
    {
      assert c'.log[c.marks[i]] == (c.log + [q])[c.marks[i]];
    }
    assert c'.marks[|c.marks|] == |c.log|;
  }

  lemma FinishedOptimal(p: Problem, st: SoftState, model: Option<Assignment>)
    requires Sound(p, st) && BestModel(p, model, st.hi)
    requires st.lo + st.offset >= st.hi && Satisfiable(p.hard)
    ensures IsMinCost(p, st.hi)
  {
    OptimalAtExit(p, st);
  }

  // Restricting to one correction set leaves the disjoint others intact.
  lemma DisjointSetsLeft(sets: seq<set<Formula>>, i: nat, soft: set<Formula>, soft': set<Formula>, offset: nat, hi: nat)
    requires i < |sets| && PairwiseDisjoint(sets)
    requires CorrectionsOf(soft, offset, hi, sets[i..])
    requires soft - sets[i] <= soft'
    ensures CorrectionsOf(soft', offset, hi, sets[i + 1..])
  {
    var rest := sets[i + 1..];
    forall C | C in rest
      ensures C <= soft' && |C| + offset >= hi
    {
      var j :| i < j < |sets| && sets[j] == C;
      assert C == sets[i..][j - i] && C in sets[i..];
      assert sets[i] !! sets[j];
    }
  }
}
