/** Solving exists-forall problems by counterexample-guided instantiation. */
module ExistsForall {
  import opened Lists
  import opened Oracle

  ghost predicate AllHold<V, W>(holds: (V, W) -> bool, v: V, ws: seq<W>) {
    forall w :: w in ws ==> holds(v, w)
  }

  // What a solver may answer: a value that meets every assertion, or none when there is none.
  ghost predicate ValidOracle<V(!new), W(!new)>(holds: (V, W) -> bool, oracle: seq<W> -> Option<V>) {
    forall ws: seq<W> {:trigger oracle(ws)} ::
      match oracle(ws)
      case Some(v) => AllHold(holds, v, ws)
      case None => forall v :: !AllHold(holds, v, ws)
  }

  // A solver for values of V; asserting w asserts holds(v, w).  Assertions live in scopes.
  class InstanceSolver<V(!new), W(!new)> {
    ghost const holds: (V, W) -> bool
    const oracle: seq<W> -> Option<V>
    var asserted: seq<W>
    var scopes: seq<nat>

    constructor (ghost holds: (V, W) -> bool, oracle: seq<W> -> Option<V>)
      ensures this.holds == holds && this.oracle == oracle && asserted == [] && scopes == []
    {
      this.holds, this.oracle := holds, oracle;
      asserted, scopes := [], [];
    }

    method Add(w: W)
      modifies this
      ensures asserted == old(asserted) + [w] && scopes == old(scopes)
    {
      asserted := asserted + [w];
    }

    method Push()
      modifies this
      ensures asserted == old(asserted) && scopes == old(scopes) + [|asserted|]
    {
      scopes := scopes + [|asserted|];
    }

    method Pop()
      requires scopes != [] && scopes[|scopes| - 1] <= |asserted|
      modifies this
      ensures scopes == old(scopes)[..|old(scopes)| - 1]
      ensures asserted == old(asserted)[..old(scopes)[|old(scopes)| - 1]]
    {
      var last := |scopes| - 1;
      asserted := asserted[..scopes[last]];
      scopes := scopes[..last];
    }

    method Check() returns (r: Option<V>)
      requires ValidOracle(holds, oracle)
      ensures r == oracle(asserted)
      ensures r.Some? ==> AllHold(holds, r.value, asserted)
      ensures r.None? ==> forall v :: !AllHold(holds, v, asserted)
    {
      r := oracle(asserted);
    }
  }

  // The opponent's view: the counterexamples y against x.
  function Opposed<X, Y>(phi: (X, Y) -> bool): (Y, X) -> bool {
    (y, x) => !phi(x, y)
  }

  ghost predicate Wins<X, Y(!new)>(phi: (X, Y) -> bool, x: X) {
    forall y :: phi(x, y)
  }

  datatype Result<X> = Found(x: X) | NoSolution | GaveUp

  // The run that the two solvers determine: each candidate is chosen against the counterexamples before it, and each
  // counterexample against its candidate.
  ghost predicate IsChain<X, Y>(chooseX: seq<Y> -> Option<X>, chooseY: seq<X> -> Option<Y>,
                                tried: seq<X>, ys: seq<Y>) {
    && |tried| == |ys|
    && forall i :: 0 <= i < |ys| ==> chooseX(ys[..i]) == Some(tried[i]) && chooseY([tried[i]]) == Some(ys[i])
  }

  lemma ChainSnoc<X, Y>(chooseX: seq<Y> -> Option<X>, chooseY: seq<X> -> Option<Y>,
                        tried: seq<X>, ys: seq<Y>, x: X, y: Y)
    requires IsChain(chooseX, chooseY, tried, ys) && chooseX(ys) == Some(x) && chooseY([x]) == Some(y)
    ensures IsChain(chooseX, chooseY, tried + [x], ys + [y])
  {
    var tried', ys' := tried + [x], ys + [y];
    forall i | 0 <= i < |ys'|
      ensures chooseX(ys'[..i]) == Some(tried'[i]) && chooseY([tried'[i]]) == Some(ys'[i])
    {
      assert ys'[..i] == ys[..i];
      if i == |ys| {
        assert ys[..i] == ys;
      }
    }
  }

  /** There is only one run: of two chains the shorter one starts the longer one. */
  lemma {:induction false} ChainsAgree<X, Y>(chooseX: seq<Y> -> Option<X>, chooseY: seq<X> -> Option<Y>,
                                             tried: seq<X>, ys: seq<Y>, tried': seq<X>, ys': seq<Y>)
    requires IsChain(chooseX, chooseY, tried, ys) && IsChain(chooseX, chooseY, tried', ys') && |ys| <= |ys'|
    ensures tried == tried'[..|ys|] && ys == ys'[..|ys|]
    decreases |ys|
  {
    if ys != [] {
      var last := |ys| - 1;
      assert IsChain(chooseX, chooseY, tried[..last], ys[..last]) by {
        assert forall i :: 0 <= i < last ==> ys[..last][..i] == ys[..i];
      }
      ChainsAgree(chooseX, chooseY, tried[..last], ys[..last], tried', ys');
      assert chooseX(ys[..last]) == Some(tried[last]) && chooseX(ys'[..last]) == Some(tried'[last]);
    }
  }

  // The run ends with this result after refuting these candidates.
  ghost predicate EndsWith<X(!new), Y(!new)>(chooseX: seq<Y> -> Option<X>, chooseY: seq<X> -> Option<Y>,
                                             maxloops: Option<nat>, r: Result<X>, tried: seq<X>, ys: seq<Y>) {
    && IsChain(chooseX, chooseY, tried, ys)
    && match r
       case Found(x) => (maxloops.Some? ==> |ys| <= maxloops.value) && chooseX(ys) == Some(x) && chooseY([x]) == None
       case NoSolution => (maxloops.Some? ==> |ys| <= maxloops.value) && chooseX(ys) == None
       case GaveUp => maxloops.Some? && |ys| == maxloops.value + 1
  }

  /** So there is only one result. */
  lemma ResultUnique<X(!new), Y(!new)>(chooseX: seq<Y> -> Option<X>, chooseY: seq<X> -> Option<Y>,
                                       maxloops: Option<nat>, r: Result<X>, tried: seq<X>, ys: seq<Y>,
                                       r': Result<X>, tried': seq<X>, ys': seq<Y>)
    requires EndsWith(chooseX, chooseY, maxloops, r, tried, ys)
    requires EndsWith(chooseX, chooseY, maxloops, r', tried', ys') && |ys| <= |ys'|
    ensures r == r' && tried == tried' && ys == ys'
  {
    ChainsAgree(chooseX, chooseY, tried, ys, tried', ys');
    assert |ys| == |ys'|;
    assert ys'[..|ys|] == ys' && tried'[..|ys|] == tried';
  }

  // Every candidate tried has the counterexample recorded at the same place.
  ghost predicate Refuted<X, Y>(phi: (X, Y) -> bool, tried: seq<X>, ys: seq<Y>) {
    |tried| == |ys| && forall i :: 0 <= i < |ys| ==> !phi(tried[i], ys[i])
  }

  lemma NewCandidate<X, Y>(phi: (X, Y) -> bool, tried: seq<X>, ys: seq<Y>, x: X)
    requires Refuted(phi, tried, ys) && Distinct(tried) && AllHold(phi, x, ys)
    ensures x !in tried && Distinct(tried + [x])
  {
    forall i | 0 <= i < |tried|
      ensures tried[i] != x
    {
      assert ys[i] in ys;
    }
  }

  /**
   A value found works against all opponents, "no solution" means that none does, and no candidate is tried twice.
   The result is that of the run the two solvers determine, cut off after one more refuted candidate than loops were
   allowed.
   */
  method Efsmt<X(==,!new), Y(!new)>(phi: (X, Y) -> bool, chooseX: seq<Y> -> Option<X>, chooseY: seq<X> -> Option<Y>,
                                    maxloops: Option<nat>, ghost domain: set<X>) returns (r: Result<X>)
    requires ValidOracle(phi, chooseX)
    requires ValidOracle(Opposed(phi), chooseY)
    requires maxloops.None? ==> forall x: X :: x in domain
    ensures r.Found? ==> Wins(phi, r.x)
    ensures r.NoSolution? ==> forall x :: !Wins(phi, x)
    ensures exists tried: seq<X>, ys: seq<Y> ::
      EndsWith(chooseX, chooseY, maxloops, r, tried, ys) && Distinct(tried) && Refuted(phi, tried, ys)
  {
    var chooser := new InstanceSolver<X, Y>(phi, chooseX);
    var refuter := new InstanceSolver<Y, X>(Opposed(phi), chooseY);
    var loops: nat := 0;
    ghost var tried: seq<X> := [];
    while maxloops.None? || loops <= maxloops.value
      invariant fresh(chooser) && fresh(refuter)
      invariant chooser.holds == phi && chooser.oracle == chooseX
      invariant refuter.holds == Opposed(phi) && refuter.oracle == chooseY
      invariant refuter.asserted == [] && refuter.scopes == []
      invariant loops == |tried| && (maxloops.Some? ==> loops <= maxloops.value + 1)
      invariant Refuted(phi, tried, chooser.asserted) && Distinct(tried)
      invariant IsChain(chooseX, chooseY, tried, chooser.asserted)
      decreases if maxloops.None? then |domain - ToSet(tried)| else maxloops.value + 1 - loops
    {
      loops := loops + 1;
      var emodel := chooser.Check();
      if emodel.None? {
        NoneWins(phi, chooser.asserted);
        assert EndsWith(chooseX, chooseY, maxloops, NoSolution, tried, chooser.asserted);
        return NoSolution;
      }
      var x := emodel.value;
      NewCandidate(phi, tried, chooser.asserted, x);
      refuter.Push();
      refuter.Add(x);
      assert refuter.asserted == [x];
      var fmodel := refuter.Check();
      if fmodel.None? {
        Unopposed(phi, x, refuter.asserted);
        assert EndsWith(chooseX, chooseY, maxloops, Found(x), tried, chooser.asserted);
        return Found(x);
      }
      var y := fmodel.value;
      assert !phi(x, y) by { assert x in refuter.asserted; }
      ChainSnoc(chooseX, chooseY, tried, chooser.asserted, x, y);
      chooser.Add(y);
      if maxloops.None? {
        DomainShrinks(domain, tried, x);
      }
      tried := tried + [x];
      refuter.Pop();
    }
    assert EndsWith(chooseX, chooseY, maxloops, GaveUp, tried, chooser.asserted);
    return GaveUp;
  }

  lemma NoneWins<X(!new), Y(!new)>(phi: (X, Y) -> bool, ys: seq<Y>)
    requires forall x :: !AllHold(phi, x, ys)
    ensures forall x :: !Wins(phi, x)
  {
    forall x
      ensures !Wins(phi, x)
    {
      assert !AllHold(phi, x, ys);
    }
  }

  lemma Unopposed<X(!new), Y(!new)>(phi: (X, Y) -> bool, x: X, xs: seq<X>)
    requires xs == [x] && forall y :: !AllHold(Opposed(phi), y, xs)
    ensures Wins(phi, x)
  {
    forall y
      ensures phi(x, y)
    {
      assert !AllHold(Opposed(phi), y, xs);
    }
  }

  lemma DomainShrinks<X>(domain: set<X>, tried: seq<X>, x: X)
    requires x in domain && x !in tried
    ensures |domain - ToSet(tried + [x])| < |domain - ToSet(tried)|
  {
    ToSetSnoc(tried, x);
    SubsetSize(domain - ToSet(tried + [x]), domain - ToSet(tried));
    assert x in domain - ToSet(tried);
  }
}
