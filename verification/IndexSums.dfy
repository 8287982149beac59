/** Sums of a list of weights over sets of indices. */
module IndexSums {

  function Sum(ws: seq<nat>): nat {
    if ws == [] then 0 else Sum(ws[..|ws| - 1]) + ws[|ws| - 1]
  }

  function SumOver(ws: seq<nat>, t: set<nat>): nat {
    if ws == [] then 0
    else
      var last := |ws| - 1;
      SumOver(ws[..last], t) + if last in t then ws[last] else 0
  }

  ghost predicate Within(t: set<nat>, n: nat) {
    forall i :: i in t ==> i < n
  }

  lemma {:induction false} SumOverAll(ws: seq<nat>, t: set<nat>)
    requires forall i: nat :: i < |ws| ==> i in t
    ensures SumOver(ws, t) == Sum(ws)
  {
    if ws != [] {
      SumOverAll(ws[..|ws| - 1], t);
    }
  }

  lemma {:induction false} SumOverUnion(ws: seq<nat>, s: set<nat>, t: set<nat>)
    requires s !! t
    ensures SumOver(ws, s + t) == SumOver(ws, s) + SumOver(ws, t)
  {
    if ws != [] {
      SumOverUnion(ws[..|ws| - 1], s, t);
    }
  }

  lemma {:induction false} SumOverMonotone(ws: seq<nat>, s: set<nat>, t: set<nat>)
    requires s <= t
    ensures SumOver(ws, s) <= SumOver(ws, t)
  {
    if ws != [] {
      SumOverMonotone(ws[..|ws| - 1], s, t);
    }
  }

  lemma {:induction false} SumOverAbove(ws: seq<nat>, t: set<nat>)
    requires forall i :: i in t ==> i >= |ws|
    ensures SumOver(ws, t) == 0
  {
    if ws != [] {
      SumOverAbove(ws[..|ws| - 1], t);
    }
  }

  lemma {:induction false} SumOverSingle(ws: seq<nat>, x: nat)
    requires x < |ws|
    ensures SumOver(ws, {x}) == ws[x]
  {
    var last := |ws| - 1;
    if x == last {
      SumOverAbove(ws[..last], {x});
    } else {
      SumOverSingle(ws[..last], x);
    }
  }

  lemma SumOverAdd(ws: seq<nat>, t: set<nat>, x: nat)
    requires x < |ws| && x !in t
    ensures SumOver(ws, t + {x}) == SumOver(ws, t) + ws[x]
  {
    SumOverUnion(ws, t, {x});
    SumOverSingle(ws, x);
  }

  function All(n: nat): (every: set<nat>)
    ensures forall i: nat :: i in every <==> i < n
  {
    if n == 0 then {} else All(n - 1) + {n - 1}
  }

  // A set and what is left of the indices share the total.
  lemma SumOverSplit(ws: seq<nat>, s: set<nat>, t: set<nat>)
    requires s !! t
    ensures SumOver(ws, s) + SumOver(ws, t) <= Sum(ws)
    ensures s + t >= All(|ws|) ==> SumOver(ws, s) + SumOver(ws, t) == Sum(ws)
  {
    var every := s + t + All(|ws|);
    SumOverUnion(ws, s, t);
    SumOverMonotone(ws, s + t, every);
    SumOverAll(ws, every);
    if s + t >= All(|ws|) {
      SumOverAll(ws, s + t);
    }
  }
}
