/** What hitting-set MaxSAT learns from the solver's answers between two rewritings of the soft constraints. */
module HsJournal {
  import opened Formulas
  import opened Lists
  import opened Oracle
  import opened MaxResolution
  import opened HsBounds
  import opened HsCores

  // The answers so far and what has been recorded: cores, correction sets and the upper bound.
  datatype Journal = Journal(log: seq<Query>, cores: seq<set<Formula>>, corrections: seq<set<Formula>>, hi: nat)

  // `x` is among the sets added to `xs`.
  ghost predicate Added(xs: seq<set<Formula>>, ys: seq<set<Formula>>, x: set<Formula>) {
    exists j :: |xs| <= j < |ys| && ys[j] == x
  }

  // The model's correction set has been added, and the upper bound is at most its cost.
  ghost predicate Noted(p: Problem, soft: set<Formula>, j: Journal, j': Journal, m: Assignment) {
    Added(j.corrections, j'.corrections, Falsified(soft, m)) && j'.hi <= Cost(p.soft, m)
  }

  // Nothing recorded is lost.
  ghost predicate Extends(j: Journal, j': Journal) {
    match j
    case Journal(log, cores, corrections, hi) =>
      log <= j'.log && cores <= j'.cores && corrections <= j'.corrections && j'.hi <= hi
  }

  // Nothing recorded is lost, and every model answered meanwhile is noted.
  ghost predicate Learns(p: Problem, soft: set<Formula>, j: Journal, j': Journal) {
    match j'
    case Journal(log, _, _, _) =>
      && Extends(j, j')
      && forall i :: |j.log| <= i < |log| && log[i].answer.TimedSat? ==> Noted(p, soft, j, j', log[i].answer.model)
  }

  // Some answer since was "unknown".
  ghost predicate Undecided(j: Journal, j': Journal) {
    exists i :: |j.log| <= i < |j'.log| && j'.log[i].answer.Unknown?
  }

  // The solver has since answered with this model.
  ghost predicate Answered(j: Journal, j': Journal, m: Assignment) {
    exists i :: |j.log| <= i < |j'.log| && j'.log[i].answer == TimedSat(m)
  }

  function Asked(j: Journal, q: Query): Journal {
    j.(log := j.log + [q])
  }

  lemma AddedOn(w: seq<set<Formula>>, x: seq<set<Formula>>, y: seq<set<Formula>>, z: seq<set<Formula>>, c: set<Formula>)
    requires w <= x && y <= z && Added(x, y, c)
    ensures Added(w, z, c)
  {
    var j :| |x| <= j < |y| && y[j] == c;
    assert z[j] == c;
  }

  lemma AddedLast(xs: seq<set<Formula>>, x: set<Formula>)
    ensures Added(xs, xs + [x], x)
  {
    assert (xs + [x])[|xs|] == x;
  }

  lemma NotedOn(p: Problem, soft: set<Formula>, a: Journal, b: Journal, c: Journal, d: Journal, m: Assignment)
    requires Extends(a, b) && Extends(c, d) && Noted(p, soft, b, c, m)
    ensures Noted(p, soft, a, d, m)
  {
    AddedOn(a.corrections, b.corrections, c.corrections, d.corrections, Falsified(soft, m));
  }

  lemma ExtendsTrans(a: Journal, b: Journal, c: Journal)
    requires Extends(a, b) && Extends(b, c)
    ensures Extends(a, c)
  {
  }

  /** Learning is transitive: what one stretch of the search has noted stays noted. */
  lemma LearnsTrans(p: Problem, soft: set<Formula>, a: Journal, b: Journal, c: Journal)
    requires Learns(p, soft, a, b) && Learns(p, soft, b, c)
    ensures Learns(p, soft, a, c)
  {
    ExtendsTrans(a, b, c);
    forall i | |a.log| <= i < |c.log| && c.log[i].answer.TimedSat?
      ensures Noted(p, soft, a, c, c.log[i].answer.model)
    {
      if i < |b.log| {
        assert b.log[i] == c.log[i];
        NotedOn(p, soft, a, a, b, c, c.log[i].answer.model);
      } else {
        NotedOn(p, soft, a, b, c, c, c.log[i].answer.model);
      }
    }
  }

  // A model answered and then improved on.
  lemma LearnsModel(p: Problem, soft: set<Formula>, j: Journal, assumptions: set<Formula>, m: Assignment, j': Journal)
    requires j' == Journal(j.log + [Query(assumptions, TimedSat(m))], j.cores,
                           j.corrections + [Falsified(soft, m)], j'.hi)
    requires j'.hi <= j.hi && j'.hi <= Cost(p.soft, m)
    ensures Learns(p, soft, j, j') && Answered(j, j', m)
  {
    assert j'.log[|j.log|].answer == TimedSat(m);
    AddedLast(j.corrections, Falsified(soft, m));
  }

  // The journal after recording a model.
  function Improved(p: Problem, soft: set<Formula>, j: Journal, m: Assignment): Journal {
    var cost := Cost(p.soft, m);
    j.(corrections := j.corrections + [Falsified(soft, m)], hi := if cost < j.hi then cost else j.hi)
  }

  lemma ImprovedLearns(p: Problem, soft: set<Formula>, j: Journal, m: Assignment)
    ensures Learns(p, soft, j, Improved(p, soft, j, m)) && Noted(p, soft, j, Improved(p, soft, j, m), m)
  {
    AddedLast(j.corrections, Falsified(soft, m));
  }

  // A model answered and noted, with whatever was learnt after that.
  lemma LearnsNoted(p: Problem, soft: set<Formula>, j: Journal, assumptions: set<Formula>, m: Assignment, j': Journal)
    requires var k := Asked(j, Query(assumptions, TimedSat(m)));
      Learns(p, soft, k, j') && Noted(p, soft, k, j', m)
    ensures Learns(p, soft, j, j') && Answered(j, j', m)
  {
    var k := Asked(j, Query(assumptions, TimedSat(m)));
    assert k.log[|j.log|] == j'.log[|j.log|];
    forall i | |j.log| <= i < |j'.log| && j'.log[i].answer.TimedSat?
      ensures Noted(p, soft, j, j', j'.log[i].answer.model)
    {
      assert i > |j.log| ==> Noted(p, soft, k, j', j'.log[i].answer.model);
    }
  }

  lemma LearnsOther(p: Problem, soft: set<Formula>, j: Journal, assumptions: set<Formula>, answer: TimedAnswer,
                    j': Journal)
    requires !answer.TimedSat? && Learns(p, soft, Asked(j, Query(assumptions, answer)), j')
    ensures Learns(p, soft, j, j') && (answer.Unknown? ==> Undecided(j, j'))
  {
    var k := Asked(j, Query(assumptions, answer));
    assert k.log[|j.log|] == j'.log[|j.log|];
    forall i | |j.log| <= i < |j'.log| && j'.log[i].answer.TimedSat?
      ensures Noted(p, soft, j, j', j'.log[i].answer.model)
    {
      assert i != |j.log|;
      assert Noted(p, soft, k, j', j'.log[i].answer.model);
    }
  }

  lemma UndecidedOn(a: Journal, b: Journal, c: Journal, d: Journal)
    requires Extends(a, b) && Extends(c, d) && Undecided(b, c)
    ensures Undecided(a, d)
  {
    var i :| |b.log| <= i < |c.log| && c.log[i].answer.Unknown?;
    assert d.log[i] == c.log[i];
  }

  lemma StillUndecided(a: Journal, b: Journal, c: Journal, lately: bool)
    requires Extends(a, b) && Extends(b, c) && if lately then Undecided(b, c) else Undecided(a, b)
    ensures Undecided(a, c)
  {
    if lately {
      UndecidedOn(a, b, c, c);
    } else {
      UndecidedOn(a, a, b, c);
    }
  }

  lemma AnsweredOn(a: Journal, b: Journal, c: Journal, d: Journal, m: Assignment)
    requires Extends(a, b) && Extends(c, d) && Answered(b, c, m)
    ensures Answered(a, d, m)
  {
    var i :| |b.log| <= i < |c.log| && c.log[i].answer == TimedSat(m);
    assert d.log[i] == c.log[i];
  }

  // Maximal satisfiable subsets

  // Nothing of `c` can be satisfied in addition to everything else.
  ghost predicate Minimal(asserted: seq<Formula>, soft: set<Formula>, c: set<Formula>) {
    forall f :: f in c ==> Refutes(asserted, soft - c + {f})
  }

  ghost predicate MinimalCorrection(asserted: seq<Formula>, soft: set<Formula>, j: Journal, j': Journal,
                                    start: set<Formula>, c: set<Formula>) {
    c <= soft - start && Minimal(asserted, soft, c) && (c == soft - start || Added(j.corrections, j'.corrections, c))
  }

  // From `start` the search has reached a maximal satisfiable subset, and recorded what it leaves out.
  ghost predicate Explored(asserted: seq<Formula>, soft: set<Formula>, j: Journal, j': Journal, start: set<Formula>) {
    || Undecided(j, j')
    || (exists c :: MinimalCorrection(asserted, soft, j, j', start, c))
  }

  lemma ExploredOn(asserted: seq<Formula>, soft: set<Formula>, a: Journal, b: Journal, c: Journal, d: Journal,
                   start: set<Formula>)
    requires Extends(a, b) && Extends(c, d) && Explored(asserted, soft, b, c, start)
    ensures Explored(asserted, soft, a, d, start)
  {
    if Undecided(b, c) {
      UndecidedOn(a, b, c, d);
    } else {
      var x :| MinimalCorrection(asserted, soft, b, c, start, x);
      if x != soft - start {
        AddedOn(a.corrections, b.corrections, c.corrections, d.corrections, x);
      }
      assert MinimalCorrection(asserted, soft, a, d, start, x);
    }
  }

  // A satisfiable subset on the way up: it is where it started, or some model answered since satisfies it.
  ghost predicate Grown(asserted: seq<Formula>, soft: set<Formula>, j: Journal, j': Journal,
                        start: set<Formula>, mss: set<Formula>) {
    && start <= mss <= soft
    && (mss == start || exists m :: Answered(j, j', m) && Holds(asserted, m) && HoldsAll(mss, m))
  }

  lemma GrownOn(asserted: seq<Formula>, soft: set<Formula>, j: Journal, j': Journal, j'': Journal,
                start: set<Formula>, mss: set<Formula>)
    requires Extends(j', j'') && Grown(asserted, soft, j, j', start, mss)
    ensures Grown(asserted, soft, j, j'', start, mss)
  {
    if mss != start {
      var m :| Answered(j, j', m) && Holds(asserted, m) && HoldsAll(mss, m);
      AnsweredOn(j, j, j', j'', m);
    }
  }

  lemma GrownTrans(asserted: seq<Formula>, soft: set<Formula>, a: Journal, b: Journal, c: Journal,
                   start: set<Formula>, mss: set<Formula>, mss': set<Formula>)
    requires Extends(a, b) && Extends(b, c)
    requires Grown(asserted, soft, a, b, start, mss) && Grown(asserted, soft, b, c, mss, mss')
    ensures Grown(asserted, soft, a, c, start, mss')
  {
    if mss' == mss {
      GrownOn(asserted, soft, a, b, c, start, mss);
    } else {
      var m :| Answered(b, c, m) && Holds(asserted, m) && HoldsAll(mss', m);
      AnsweredOn(a, b, c, c, m);
    }
  }

  // Where nothing can be added any more, the model that satisfies the subset falsifies exactly the rest.
  lemma MaximalReached(p: Problem, asserted: seq<Formula>, soft: set<Formula>, j: Journal, j': Journal,
                       start: set<Formula>, mss: set<Formula>)
    requires Learns(p, soft, j, j') && Grown(asserted, soft, j, j', start, mss)
    requires forall f :: f in soft - mss ==> Refutes(asserted, mss + {f})
    ensures MinimalCorrection(asserted, soft, j, j', start, soft - mss)
  {
    assert soft - (soft - mss) == mss;
    if mss != start {
      var m :| Answered(j, j', m) && Holds(asserted, m) && HoldsAll(mss, m);
      forall f | f in soft
        ensures f in Falsified(soft, m) <==> f in soft - mss
      {
        if f in soft - mss {
          assert Refutes(asserted, mss + {f}) && !HoldsAll(mss + {f}, m);
        }
      }
      assert Falsified(soft, m) == soft - mss;
      var i :| |j.log| <= i < |j'.log| && j'.log[i].answer == TimedSat(m);
      assert Noted(p, soft, j, j', m);
    }
  }

  // A core has been added that keeps `f` out of the subset.
  ghost predicate CoreAdded(j: Journal, j': Journal, mss: set<Formula>, f: Formula) {
    exists core :: Added(j.cores, j'.cores, core) && f in core && core <= mss + {f}
  }

  lemma CoreAddedOn(j: Journal, j': Journal, mss: set<Formula>, f: Formula, j'': Journal, mss': set<Formula>)
    requires CoreAdded(j, j', mss, f) && Extends(j', j'') && mss <= mss'
    ensures CoreAdded(j, j'', mss', f)
  {
    var core :| Added(j.cores, j'.cores, core) && f in core && core <= mss + {f};
    AddedOn(j.cores, j.cores, j'.cores, j''.cores, core);
  }

  lemma RefutesMoreAssumptions(asserted: seq<Formula>, core: set<Formula>, more: set<Formula>)
    requires Refutes(asserted, core) && core <= more
    ensures Refutes(asserted, more)
  {
    forall a | Holds(asserted, a)
      ensures !HoldsAll(more, a)
    {
      assert !HoldsAll(core, a);
    }
  }

  lemma WithoutOne(list: seq<Formula>, i: nat, others: seq<Formula>)
    requires i < |list| && Distinct(list) && others == list[..i] + list[i + 1..]
    ensures ToSet(others) == ToSet(list) - {list[i]} && |others| == |list| - 1
  {
    forall f | f in ToSet(list) - {list[i]}
      ensures f in others
    {
      var k :| 0 <= k < |list| && list[k] == f;
      assert f == if k < i then others[k] else others[k - 1];
    }
    forall f | f in others
      ensures f in ToSet(list) - {list[i]}
    {
      var k :| 0 <= k < |others| && others[k] == f;
      assert f == if k < i then list[k] else list[k + 1];
    }
  }

  // The first members of the list cannot be left out.
  ghost predicate NeededBefore(asserted: seq<Formula>, list: seq<Formula>, n: nat) {
    forall i :: 0 <= i < n && i < |list| ==> !Refutes(asserted, ToSet(list) - {list[i]})
  }

  // Where the reduction of a core stands: the members left, the next one to try, and how many checks were undecided.
  datatype Reduction = Reduction(list: seq<Formula>, i: nat, undefined: nat)

  ghost predicate Reducing(p: Problem, asserted: seq<Formula>, soft: set<Formula>, j: Journal, j': Journal,
                           whole: seq<Formula>, r: Reduction) {
    match r
    case Reduction(list, i, undefined) =>
      && Learns(p, soft, j, j') && (undefined > 0 ==> Undecided(j, j'))
      && Distinct(list) && Refutes(asserted, ToSet(list)) && ToSet(list) <= ToSet(whole)
      && (list == whole || |list| < |whole|)
      && (undefined == 0 && list == whole ==> NeededBefore(asserted, whole, i))
  }

  lemma ReduceNext(p: Problem, asserted: seq<Formula>, soft: set<Formula>, j: Journal, k: Journal, j': Journal,
                   whole: seq<Formula>, r: Reduction, list: seq<Formula>, undef: bool)
    requires Reducing(p, asserted, soft, j, k, whole, r) && Learns(p, soft, k, j') && r.i < |r.list|
    requires Distinct(list) && Refutes(asserted, ToSet(list)) && ToSet(list) <= ToSet(r.list)
    requires list == r.list || |list| < |r.list|
    requires if undef then list == r.list && Undecided(k, j')
             else list == r.list ==> !Refutes(asserted, ToSet(list) - {list[r.i]})
    ensures Reducing(p, asserted, soft, j, j', whole,
                     Reduction(list, r.i + 1, if undef then r.undefined + 1 else r.undefined))
  {
    LearnsTrans(p, soft, j, k, j');
    if undef || r.undefined > 0 {
      StillUndecided(j, k, j', undef);
    }
  }

  lemma ReduceDone(p: Problem, asserted: seq<Formula>, soft: set<Formula>, j: Journal, j': Journal,
                   whole: seq<Formula>, core: set<Formula>, r: Reduction)
    requires Reducing(p, asserted, soft, j, j', whole, r) && (r.i >= |r.list| || r.undefined > 0)
    requires ToSet(whole) == core && |whole| == |core|
    ensures ToSet(r.list) == core ==> Undecided(j, j') || Irreducible(asserted, core)
  {
    DistinctSize(r.list);
    if ToSet(r.list) == core && r.undefined == 0 {
      AllNeeded(asserted, whole, core);
    }
  }

  lemma AllNeeded(asserted: seq<Formula>, list: seq<Formula>, core: set<Formula>)
    requires ToSet(list) == core && NeededBefore(asserted, list, |list|)
    ensures Irreducible(asserted, core)
  {
    forall f | f in core
      ensures !Refutes(asserted, core - {f})
    {
      var i :| 0 <= i < |list| && list[i] == f;
    }
  }

  // No member of the core can be left out.
  ghost predicate Irreducible(asserted: seq<Formula>, core: set<Formula>) {
    forall f :: f in core ==> !Refutes(asserted, core - {f})
  }

  // Rotation

  // Why a rotation leaves `f` out: a core, recorded when it is small, from which its negation follows.
  ghost predicate RotatedOut(asserted: seq<Formula>, j: Journal, j': Journal, mss: set<Formula>, f: Formula,
                             backbone2core: map<Formula, set<Formula>>) {
    exists core :: RotationCore(asserted, j, j', mss, f, backbone2core, core)
  }

  ghost predicate RotationCore(asserted: seq<Formula>, j: Journal, j': Journal, mss: set<Formula>, f: Formula,
                               backbone2core: map<Formula, set<Formula>>, core: set<Formula>) {
    && core <= mss + {f} && Refutes(asserted, core)
    && Not(f) in backbone2core && backbone2core[Not(f)] == core - {f}
    && (|core| < 20 ==> Added(j.cores, j'.cores, core))
  }

  lemma RotatedOutBy(asserted: seq<Formula>, j: Journal, mss: set<Formula>, f: Formula,
                     backbone2core: map<Formula, set<Formula>>, core: set<Formula>)
    requires core <= mss + {f} && Refutes(asserted, core)
    ensures var j' := if |core| < 20 then j.(cores := j.cores + [core]) else j;
      Extends(j, j') && RotatedOut(asserted, j, j', mss, f, backbone2core[Not(f) := core - {f}])
  {
    AddedLast(j.cores, core);
    var j' := if |core| < 20 then j.(cores := j.cores + [core]) else j;
    assert RotationCore(asserted, j, j', mss, f, backbone2core[Not(f) := core - {f}], core);
  }

  lemma RotatedOutOn(asserted: seq<Formula>, a: Journal, b: Journal, c: Journal, d: Journal, mss: set<Formula>,
                     f: Formula, backbone2core: map<Formula, set<Formula>>, mss': set<Formula>,
                     backbone2core': map<Formula, set<Formula>>)
    requires RotatedOut(asserted, b, c, mss, f, backbone2core) && Extends(a, b) && Extends(c, d) && mss <= mss'
    requires Not(f) in backbone2core' && (Not(f) in backbone2core ==> backbone2core'[Not(f)] == backbone2core[Not(f)])
    ensures RotatedOut(asserted, a, d, mss', f, backbone2core')
  {
    var core :| RotationCore(asserted, b, c, mss, f, backbone2core, core);
    if |core| < 20 {
      AddedOn(a.cores, b.cores, c.cores, d.cores, core);
    }
    assert RotationCore(asserted, a, d, mss', f, backbone2core', core);
  }

  // Everything outside the subset and the formulas still to be tried has been rotated out.
  ghost predicate AllRotatedOut(asserted: seq<Formula>, soft: set<Formula>, j: Journal, j': Journal,
                                mss: set<Formula>, open: set<Formula>, backbone2core: map<Formula, set<Formula>>) {
    || Undecided(j, j')
    || (forall f :: f in soft - mss - open ==> RotatedOut(asserted, j, j', mss, f, backbone2core))
  }

  // The subset a rotation has reached, with the cores behind its backbones.
  datatype Rotation = Rotation(mss: set<Formula>, backbone2core: map<Formula, set<Formula>>)

  // What trying one formula does: it joins the subset, or is rotated out, unless the check is undecided.
  ghost predicate Rotates(asserted: seq<Formula>, soft: set<Formula>, j: Journal, j': Journal, f: Formula, r: Rotation,
                          r': Rotation) {
    match r'
    case Rotation(mss, backbone2core) =>
      && mss <= r.mss + {f} && Grown(asserted, soft, j, j', r.mss, mss) && Backbones(asserted, mss, backbone2core)
      && backbone2core.Keys >= r.backbone2core.Keys
      && (forall n :: n in r.backbone2core && n != Not(f) ==> backbone2core[n] == r.backbone2core[n])
      && (f in mss || Undecided(j, j') || RotatedOut(asserted, j, j', r.mss, f, backbone2core))
  }

  lemma RotatesIn(asserted: seq<Formula>, soft: set<Formula>, j: Journal, j': Journal, f: Formula, r: Rotation,
                  m: Assignment)
    requires r.mss + {f} <= soft && Backbones(asserted, r.mss, r.backbone2core)
    requires Answered(j, j', m) && Holds(asserted, m) && HoldsAll(r.mss + {f}, m)
    ensures Rotates(asserted, soft, j, j', f, r, r.(mss := r.mss + {f}))
  {
    GrowBackbones(asserted, r.mss, r.mss + {f}, r.backbone2core);
  }

  lemma RotatesOut(asserted: seq<Formula>, soft: set<Formula>, j: Journal, k: Journal, j': Journal, f: Formula,
                   r: Rotation, core: set<Formula>)
    requires r.mss <= soft && Extends(j, k)
    requires var stored := r.backbone2core[Not(f) := core - {f}];
      Backbones(asserted, r.mss, stored) && RotatedOut(asserted, k, j', r.mss, f, stored)
    ensures Rotates(asserted, soft, j, j', f, r, r.(backbone2core := r.backbone2core[Not(f) := core - {f}]))
  {
    var stored := r.backbone2core[Not(f) := core - {f}];
    RotatedOutOn(asserted, j, k, j', j', r.mss, f, stored, r.mss, stored);
  }

  // One more formula tried.
  lemma OneRotated(asserted: seq<Formula>, soft: set<Formula>, j: Journal, k: Journal, j': Journal, start: set<Formula>,
                   open: set<Formula>, f: Formula, r: Rotation, r': Rotation)
    requires Extends(j, k) && Extends(k, j') && Grown(asserted, soft, j, k, start, r.mss)
    requires AllRotatedOut(asserted, soft, j, k, r.mss, open, r.backbone2core)
    requires f in open && Rotates(asserted, soft, k, j', f, r, r')
    ensures Grown(asserted, soft, j, j', start, r'.mss)
    ensures AllRotatedOut(asserted, soft, j, j', r'.mss, open - {f}, r'.backbone2core)
  {
    GrownTrans(asserted, soft, j, k, j', start, r.mss, r'.mss);
    var Rotation(mss, backbone2core) := r;
    var Rotation(mss', backbone2core') := r';
    if Undecided(j, k) {
      UndecidedOn(j, j, k, j');
    } else if Undecided(k, j') {
      UndecidedOn(j, k, j', j');
    } else {
      forall g | g in soft - mss' - (open - {f})
        ensures RotatedOut(asserted, j, j', mss', g, backbone2core')
      {
        if g == f {
          RotatedOutOn(asserted, j, k, j', j', mss, g, backbone2core', mss', backbone2core');
        } else {
          assert g in soft - mss - open;
          RotatedOutOn(asserted, j, j, k, j', mss, g, backbone2core, mss', backbone2core');
        }
      }
    }
  }

  lemma RotationExplores(p: Problem, asserted: seq<Formula>, soft: set<Formula>, j: Journal, j': Journal,
                         start: set<Formula>, mss: set<Formula>, backbone2core: map<Formula, set<Formula>>)
    requires Learns(p, soft, j, j') && Grown(asserted, soft, j, j', start, mss)
    requires AllRotatedOut(asserted, soft, j, j', mss, {}, backbone2core)
    ensures Explored(asserted, soft, j, j', start)
  {
    if !Undecided(j, j') {
      forall f | f in soft - mss
        ensures Refutes(asserted, mss + {f})
      {
        assert f in soft - mss - {};
        var core :| RotationCore(asserted, j, j', mss, f, backbone2core, core);
        RefutesMoreAssumptions(asserted, core, mss + {f});
      }
      MaximalReached(p, asserted, soft, j, j', start, mss);
    }
  }

  // In how many stored cores a formula occurs.
  function Occurrences(backbone2core: map<Formula, set<Formula>>, f: Formula): nat {
    |set n | n in backbone2core && f in backbone2core[n]|
  }

  // Every formula that occurs in more than one stored core has been left out in turn, until that lowered the bound.
  ghost predicate Rotated(asserted: seq<Formula>, soft: set<Formula>, j: Journal, j': Journal, mss: set<Formula>,
                          backbone2core: map<Formula, set<Formula>>) {
    || j'.hi < j.hi
    || (forall f :: f in mss && Occurrences(backbone2core, f) > 1 ==> Explored(asserted, soft, j, j', mss - {f}))
  }

  // The same up to the formulas still to be tried.
  ghost predicate RotatedBut(asserted: seq<Formula>, soft: set<Formula>, j: Journal, j': Journal, mss: set<Formula>,
                             backbone2core: map<Formula, set<Formula>>, untried: set<Formula>) {
    forall f :: f in mss && f !in untried && Occurrences(backbone2core, f) > 1 ==>
      Explored(asserted, soft, j, j', mss - {f})
  }

  lemma OneMoreRotated(asserted: seq<Formula>, soft: set<Formula>, j: Journal, k: Journal, j': Journal,
                       mss: set<Formula>, backbone2core: map<Formula, set<Formula>>, untried: set<Formula>, c: Formula)
    requires RotatedBut(asserted, soft, j, k, mss, backbone2core, untried) && Extends(j, k) && Extends(k, j')
    requires Occurrences(backbone2core, c) > 1 ==> Explored(asserted, soft, k, j', mss - {c})
    ensures RotatedBut(asserted, soft, j, j', mss, backbone2core, untried - {c})
  {
    forall f | f in mss && f !in untried - {c} && Occurrences(backbone2core, f) > 1
      ensures Explored(asserted, soft, j, j', mss - {f})
    {
      if f == c {
        ExploredOn(asserted, soft, j, k, j', j', mss - {f});
      } else {
        ExploredOn(asserted, soft, j, j, k, j', mss - {f});
      }
    }
  }

  lemma AllRotated(asserted: seq<Formula>, soft: set<Formula>, j: Journal, j': Journal, mss: set<Formula>,
                   backbone2core: map<Formula, set<Formula>>, untried: set<Formula>)
    requires untried == {} && RotatedBut(asserted, soft, j, j', mss, backbone2core, untried)
    ensures Rotated(asserted, soft, j, j', mss, backbone2core)
  {
  }

  // A subset reached from `start` that lowered the bound has been rotated on.
  ghost predicate RotatedOn(asserted: seq<Formula>, soft: set<Formula>, j: Journal, j': Journal, start: set<Formula>) {
    exists k, mss, backbone2core :: RotatedVia(asserted, soft, j, k, j', start, mss, backbone2core)
  }

  ghost predicate RotatedVia(asserted: seq<Formula>, soft: set<Formula>, j: Journal, k: Journal, j': Journal,
                             start: set<Formula>, mss: set<Formula>, backbone2core: map<Formula, set<Formula>>) {
    && Extends(j, k) && Extends(k, j') && k.hi < j.hi && Grown(asserted, soft, j, k, start, mss)
    && Rotated(asserted, soft, k, j', mss, backbone2core)
  }

  // Local search

  // The subset so far, and for everything outside it that is not open any more a core of its own.
  ghost predicate Searched(asserted: seq<Formula>, soft: set<Formula>, j: Journal, j': Journal, start: set<Formula>,
                           mss: set<Formula>, open: set<Formula>) {
    && Grown(asserted, soft, j, j', start, mss)
    && forall f :: f in soft - mss - open ==> CoreAdded(j, j', mss, f)
  }

  // What one more formula tried leads to: `rs` joins the subset, or a core keeps the formula out, or it stays open.
  lemma SearchedOn(asserted: seq<Formula>, soft: set<Formula>, j: Journal, k: Journal, j': Journal, start: set<Formula>,
                   mss: set<Formula>, open: set<Formula>, f: Formula, rs: set<Formula>, open': set<Formula>)
    requires Searched(asserted, soft, j, k, start, mss, open) && Extends(j, k) && Extends(k, j')
    requires rs <= soft && open - rs - {f} <= open'
    requires rs != {} ==> exists m :: Answered(k, j', m) && Holds(asserted, m) && HoldsAll(mss + rs, m)
    requires f in rs || f in open' || CoreAdded(k, j', mss, f)
    ensures Searched(asserted, soft, j, j', start, mss + rs, open')
  {
    if rs == {} {
      assert mss + rs == mss;
      GrownOn(asserted, soft, j, k, j', start, mss);
    } else {
      var m :| Answered(k, j', m) && Holds(asserted, m) && HoldsAll(mss + rs, m);
      AnsweredOn(j, k, j', j', m);
    }
    forall g | g in soft - (mss + rs) - open'
      ensures CoreAdded(j, j', mss + rs, g)
    {
      if g == f && g in open {
        CoreAddedFrom(j, k, j', mss, g);
        CoreAddedOn(j, j', mss, g, j', mss + rs);
      } else {
        assert g in soft - mss - open;
        CoreAddedOn(j, k, mss, g, j', mss + rs);
      }
    }
  }

  lemma CoreAddedFrom(j: Journal, k: Journal, j': Journal, mss: set<Formula>, f: Formula)
    requires CoreAdded(k, j', mss, f) && Extends(j, k)
    ensures CoreAdded(j, j', mss, f)
  {
    var core :| Added(k.cores, j'.cores, core) && f in core && core <= mss + {f};
    AddedOn(j.cores, k.cores, j'.cores, j'.cores, core);
  }

  // A core that contradicts a satisfiable subset with one more formula contains that formula.
  lemma CoreKept(p: Problem, asserted: seq<Formula>, soft: set<Formula>, j: Journal, k: Journal, mss: set<Formula>,
                 f: Formula, core: set<Formula>, m: Assignment)
    requires Learns(p, soft, j, k) && k.cores == j.cores
    requires Refutes(asserted, core) && core <= mss + {f} && Holds(asserted, m) && HoldsAll(mss, m)
    ensures var j' := k.(cores := k.cores + [core]);
      Learns(p, soft, j, j') && CoreAdded(j, j', mss, f)
  {
    assert f in core by {
      assert !HoldsAll(core, m);
    }
    AddedLast(j.cores, core);
  }

  // Where local search stands: the subset, what is untried, what stays open, and the cores behind the backbones.
  datatype Frontier = Frontier(
    mss: set<Formula>, untried: set<Formula>, open: set<Formula>, backbone2core: map<Formula, set<Formula>>)

  // `m` is a model of the subset.
  ghost predicate OnFrontier(p: Problem, asserted: seq<Formula>, soft: set<Formula>, j: Journal, j': Journal,
                             start: set<Formula>, fr: Frontier, m: Assignment) {
    match fr
    case Frontier(mss, untried, open, backbone2core) =>
      && Learns(p, soft, j, j') && Holds(asserted, m) && HoldsAll(mss, m) && Backbones(asserted, mss, backbone2core)
      && mss <= soft && untried <= soft - mss && open <= soft && untried !! open
      && Searched(asserted, soft, j, j', start, mss, untried + open) && (open != {} ==> Undecided(j, j'))
  }

  lemma FrontierStart(p: Problem, asserted: seq<Formula>, soft: set<Formula>, j: Journal, start: set<Formula>,
                      m: Assignment)
    requires Holds(asserted, m) && start <= soft && HoldsAll(start, m)
    ensures OnFrontier(p, asserted, soft, j, j, start, Frontier(start, soft - start, {}, map[]), m)
  {
  }

  // What trying one formula has led to.
  ghost predicate Tried(asserted: seq<Formula>, k: Journal, j': Journal, fr: Frontier, f: Formula, rs: set<Formula>,
                        undetermined: bool) {
    && rs <= {f} + fr.open && (rs != {} ==> f in rs)
    && (rs != {} ==> exists w :: Answered(k, j', w) && Holds(asserted, w) && HoldsAll(fr.mss + rs, w))
    && (undetermined ==> rs == {} && Undecided(k, j'))
    && (rs == {} && !undetermined ==> CoreAdded(k, j', fr.mss, f))
  }

  lemma FrontierNext(p: Problem, asserted: seq<Formula>, soft: set<Formula>, j: Journal, k: Journal, j': Journal,
                     start: set<Formula>, fr: Frontier, m: Assignment, f: Formula, rs: set<Formula>, undetermined: bool,
                     fr': Frontier) returns (m': Assignment)
    requires OnFrontier(p, asserted, soft, j, k, start, fr, m) && Learns(p, soft, k, j') && f in fr.untried
    requires Tried(asserted, k, j', fr, f, rs, undetermined) && Backbones(asserted, fr.mss + rs, fr'.backbone2core)
    requires fr' == Frontier(fr.mss + rs, fr.untried - {f} - rs, fr.open - rs + (if undetermined then {f} else {}),
                             fr'.backbone2core)
    ensures OnFrontier(p, asserted, soft, j, j', start, fr', m') && fr'.untried < fr.untried
  {
    LearnsTrans(p, soft, j, k, j');
    SearchedOn(asserted, soft, j, k, j', start, fr.mss, fr.untried + fr.open, f, rs, fr'.untried + fr'.open);
    if fr'.open != {} {
      StillUndecided(j, k, j', undetermined);
    }
    if rs == {} {
      m' := m;
      assert fr.mss + rs == fr.mss;
    } else {
      m' :| Answered(k, j', m') && Holds(asserted, m') && HoldsAll(fr.mss + rs, m');
    }
  }

  // A minimal correction set has been reached, with a core added for each of its members.
  ghost predicate LocallyMinimal(asserted: seq<Formula>, soft: set<Formula>, j: Journal, j': Journal,
                                 start: set<Formula>) {
    || Undecided(j, j')
    || (exists c :: MinimalCorrection(asserted, soft, j, j', start, c)
                    && forall f :: f in c ==> CoreAdded(j, j', soft - c, f))
  }

  /** When nothing is left open, local search has reached a minimal correction set. */
  lemma SearchEnds(p: Problem, asserted: seq<Formula>, soft: set<Formula>, j: Journal, j': Journal, start: set<Formula>,
                   mss: set<Formula>)
    requires Learns(p, soft, j, j') && CoresOf(asserted, soft, j'.cores)
    requires Searched(asserted, soft, j, j', start, mss, {})
    ensures LocallyMinimal(asserted, soft, j, j', start)
  {
    forall f | f in soft - mss
      ensures CoreAdded(j, j', mss, f) && Refutes(asserted, mss + {f})
    {
      assert f in soft - mss - {};
      var core :| Added(j.cores, j'.cores, core) && f in core && core <= mss + {f};
      assert core in j'.cores;
      RefutesMoreAssumptions(asserted, core, mss + {f});
    }
    MaximalReached(p, asserted, soft, j, j', start, mss);
    assert soft - (soft - mss) == mss;
  }

  // Collecting cores

  // The search has gone on to a model that satisfies everything outside the hitting set, and from there locally.
  ghost predicate EndsLocally(p: Problem, asserted: seq<Formula>, soft: set<Formula>, j: Journal, j': Journal,
                              hs: set<Formula>) {
    exists k, m :: LocalEnd(p, asserted, soft, j, k, j', hs, m)
  }

  ghost predicate LocalEnd(p: Problem, asserted: seq<Formula>, soft: set<Formula>, j: Journal, k: Journal, j': Journal,
                           hs: set<Formula>, m: Assignment) {
    var q := Query(soft - hs, TimedSat(m));
    && Learns(p, soft, j, k) && Holds(asserted, m) && HoldsAll(soft - hs, m)
    && Learns(p, soft, Asked(k, q), j')
    && LocallyMinimal(asserted, soft, Asked(k, q), j', soft - Falsified(soft, m))
  }

  // The state of the collection: what the hitting set leaves to be checked, and the cores; it hits the first n.
  datatype Collection = Collection(hs: set<Formula>, remaining: set<Formula>, cores: seq<set<Formula>>, n: nat)

  ghost predicate Collecting(asserted: seq<Formula>, soft: set<Formula>, first: set<Formula>, c: Collection) {
    match c
    case Collection(hs, remaining, cores, n) =>
      && n <= |cores| && cores != [] && cores[0] == first && CoresOf(asserted, soft, cores)
      && Hits(hs, cores[..n]) && (forall i :: n <= i < |cores| ==> cores[i] <= soft - hs)
      && remaining <= soft - hs && (n == |cores| ==> remaining == soft - hs)
  }

  lemma CollectFirst(asserted: seq<Formula>, soft: set<Formula>, hs: set<Formula>, core: set<Formula>)
    requires core != {} && core <= soft - hs && Refutes(asserted, core)
    ensures Collecting(asserted, soft, core, Collection(hs, soft - hs, [core], 0))
  {
  }

  lemma CollectOne(asserted: seq<Formula>, soft: set<Formula>, first: set<Formula>, c: Collection, core: set<Formula>,
                   f: Formula)
    requires Collecting(asserted, soft, first, c)
    requires core <= c.remaining && f in core && Refutes(asserted, core)
    ensures c.remaining - {f} < c.remaining
    ensures Collecting(asserted, soft, first, c.(remaining := c.remaining - {f}, cores := c.cores + [core]))
  {
    assert (c.cores + [core])[..c.n] == c.cores[..c.n];
  }

  lemma CollectHit(asserted: seq<Formula>, soft: set<Formula>, first: set<Formula>, c: Collection, hs: set<Formula>)
    requires Collecting(asserted, soft, first, c) && Hits(hs, c.cores)
    ensures Collecting(asserted, soft, first, Collection(hs, soft - hs, c.cores, |c.cores|))
  {
    assert c.cores[..|c.cores|] == c.cores;
  }

  lemma AllHit(asserted: seq<Formula>, soft: set<Formula>, first: set<Formula>, c: Collection)
    requires Collecting(asserted, soft, first, c) && c.n == |c.cores|
    ensures Hits(c.hs, c.cores) && c.remaining == soft - c.hs
  {
    assert c.cores[..c.n] == c.cores;
  }

  // Cores are collected until some hitting set of them leaves the rest satisfiable, or a check is left undecided.
  ghost predicate Collected(p: Problem, asserted: seq<Formula>, soft: set<Formula>, j: Journal, j': Journal,
                            cores: seq<set<Formula>>) {
    || (Learns(p, soft, j, j') && Undecided(j, j'))
    || (exists hs :: Hits(hs, cores) && EndsLocally(p, asserted, soft, j, j', hs))
  }

  lemma CollectedFrom(p: Problem, asserted: seq<Formula>, soft: set<Formula>, i: Journal, j: Journal, j': Journal,
                      cores: seq<set<Formula>>)
    requires Learns(p, soft, i, j) && Collected(p, asserted, soft, j, j', cores)
    ensures Collected(p, asserted, soft, i, j', cores)
  {
    if Learns(p, soft, j, j') && Undecided(j, j') {
      LearnsTrans(p, soft, i, j, j');
      UndecidedOn(i, j, j', j');
    } else {
      var hs :| Hits(hs, cores) && EndsLocally(p, asserted, soft, j, j', hs);
      var k, m :| LocalEnd(p, asserted, soft, j, k, j', hs, m);
      LearnsTrans(p, soft, i, j, k);
      assert LocalEnd(p, asserted, soft, i, k, j', hs, m);
    }
  }

  // The cores collected from a first one are added to those that local search has found.
  ghost predicate Gathered(p: Problem, asserted: seq<Formula>, soft: set<Formula>, j: Journal, j': Journal,
                           first: set<Formula>) {
    exists found, cores :: GatheredAs(p, asserted, soft, j, j', first, found, cores)
  }

  ghost predicate GatheredAs(p: Problem, asserted: seq<Formula>, soft: set<Formula>, j: Journal, j': Journal,
                             first: set<Formula>, found: seq<set<Formula>>, cores: seq<set<Formula>>) {
    && j'.cores == found + cores && j.cores <= found
    && cores != [] && cores[0] <= first && Collected(p, asserted, soft, j, j'.(cores := found), cores)
  }

  // How the journal goes on after the check of a step.
  ghost predicate Responded(p: Problem, asserted: seq<Formula>, soft: set<Formula>, j: Journal, q: Query, j': Journal,
                            closed: bool) {
    match q.answer
    case TimedSat(m) => j' == Improved(p, soft, Asked(j, q), m)
    case TimedUnsat(core) =>
      closed || (|j'.cores| > |j.cores| && Gathered(p, asserted, soft, Asked(j, q), j', core))
    case Unknown => j' == Asked(j, q)
  }
}
