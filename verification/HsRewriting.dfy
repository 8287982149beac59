/** What a step of hitting-set MaxSAT rewrites: which cores or correction sets, and into what. */
module HsRewriting {
  import opened Formulas
  import opened Lists
  import opened Oracle
  import opened HsBounds
  import opened HsCores
  import opened HsControl

  ghost predicate IsListOf(list: seq<Formula>, s: set<Formula>) {
    Distinct(list) && ToSet(list) == s
  }

  // The cores have been relaxed one after the other, each with its members in some order.
  ghost predicate RelaxedTo(st: SoftState, cores: seq<set<Formula>>, st': SoftState)
    decreases |cores|
  {
    if cores == [] then st' == st
    else
      var last := |cores| - 1;
      exists mid, list :: RelaxedTo(st, cores[..last], mid) && IsListOf(list, cores[last]) && RelaxesTo(mid, list, st')
  }

  ghost predicate RelaxesTo(st: SoftState, list: seq<Formula>, st': SoftState) {
    list != [] && st' == AfterRelax(st, list)
  }

  lemma RelaxedOneMore(st: SoftState, cores: seq<set<Formula>>, i: nat, mid: SoftState, list: seq<Formula>,
                       st': SoftState)
    requires i < |cores| && RelaxedTo(st, cores[..i], mid) && IsListOf(list, cores[i]) && RelaxesTo(mid, list, st')
    ensures RelaxedTo(st, cores[..i + 1], st')
  {
    assert cores[..i + 1][..i] == cores[..i];
  }

  // The size up to which sets are small, after relaxing these cores.
  function SizeAfter(size: int, cores: seq<set<Formula>>): int {
    if cores == [] then size
    else
      var last := |cores| - 1;
      NextSize(SizeAfter(size, cores[..last]), |cores[last]|)
  }

  function NextSize(size: int, core: nat): int {
    var least := if size < core - 2 then size else core - 2;
    if least < 4 then 4 else least
  }

  lemma SizeOneMore(size: int, cores: seq<set<Formula>>, i: nat)
    requires i < |cores|
    ensures SizeAfter(size, cores[..i + 1]) == NextSize(SizeAfter(size, cores[..i]), |cores[i]|)
  {
    assert cores[..i + 1][..i] == cores[..i];
  }

  // Relaxing one core leaves the disjoint others intact.
  lemma DisjointCoresLeft(cores: seq<set<Formula>>, i: nat, before: seq<Formula>, after: seq<Formula>,
                          soft: set<Formula>, soft': set<Formula>)
    requires i < |cores| && PairwiseDisjoint(cores)
    requires CoresOf(before, soft, cores[i..])
    requires before <= after && soft - cores[i] <= soft'
    ensures CoresOf(after, soft', cores[i + 1..])
  {
    var rest := cores[i + 1..];
    assert after == before + after[|before|..];
    forall K | K in rest
      ensures K != {} && K <= soft' && Refutes(after, K)
    {
      var j :| i < j < |cores| && cores[j] == K;
      assert K == cores[i..][j - i] && K in cores[i..];
      assert cores[i] !! cores[j];
      RefutesMore(before, after[|before|..], K);
    }
  }

  // Between two cores to be relaxed.
  ghost predicate Relaxing(p: Problem, st0: SoftState, size0: int, cores: seq<set<Formula>>, i: nat, st: SoftState,
                           size: int) {
    match st
    case SoftState(asserted, soft, _, _, _, _) =>
      && i <= |cores| && Sound(p, st) && RelaxedTo(st0, cores[..i], st) && size == SizeAfter(size0, cores[..i])
      && CoresOf(asserted, soft, cores[i..])
  }

  lemma RelaxingNow(p: Problem, st0: SoftState, size0: int, cores: seq<set<Formula>>, i: nat, st: SoftState, size: int)
    requires Relaxing(p, st0, size0, cores, i, st, size) && i < |cores|
    ensures cores[i] != {} && cores[i] <= st.soft && Refutes(st.asserted, cores[i])
  {
    assert cores[i] == cores[i..][0] && cores[i] in cores[i..];
  }

  lemma RelaxingNext(p: Problem, st0: SoftState, size0: int, cores: seq<set<Formula>>, i: nat, st: SoftState,
                     size: int, list: seq<Formula>, st': SoftState, size': int)
    requires Relaxing(p, st0, size0, cores, i, st, size) && i < |cores| && PairwiseDisjoint(cores)
    requires IsListOf(list, cores[i]) && RelaxesTo(st, list, st') && Sound(p, st')
    requires size' == NextSize(size, |cores[i]|)
    requires st.asserted <= st'.asserted && st.soft - cores[i] <= st'.soft
    ensures Relaxing(p, st0, size0, cores, i + 1, st', size')
  {
    RelaxedOneMore(st0, cores, i, st, list, st');
    SizeOneMore(size0, cores, i);
    DisjointCoresLeft(cores, i, st.asserted, st'.asserted, st.soft, st'.soft);
  }

  // The correction sets have been restricted to one after the other.
  ghost predicate RestrictedTo(st: SoftState, sets: seq<set<Formula>>, st': SoftState)
    decreases |sets|
  {
    if sets == [] then st' == st
    else
      var last := |sets| - 1;
      exists mid, list ::
        RestrictedTo(st, sets[..last], mid) && IsListOf(list, sets[last]) && RestrictsTo(mid, list, st')
  }

  ghost predicate RestrictsTo(st: SoftState, list: seq<Formula>, st': SoftState) {
    st' == AfterRestrict(st, list)
  }

  lemma RestrictedOneMore(st: SoftState, sets: seq<set<Formula>>, i: nat, mid: SoftState, list: seq<Formula>,
                          st': SoftState)
    requires i < |sets| && RestrictedTo(st, sets[..i], mid) && IsListOf(list, sets[i]) && RestrictsTo(mid, list, st')
    ensures RestrictedTo(st, sets[..i + 1], st')
  {
    assert sets[..i + 1][..i] == sets[..i];
  }

  // A small family of the cores has been relaxed.
  ghost predicate RelaxedSmall(coreSets: seq<set<Formula>>, size: int, st: SoftState, size': int, st': SoftState) {
    exists cores :: SmallFamily(coreSets, cores) && RelaxedTo(st, cores, st') && size' == SizeAfter(size, cores)
  }

  ghost predicate RestrictedSmall(corrSets: seq<set<Formula>>, st: SoftState, st': SoftState) {
    exists sets :: SmallFamily(corrSets, sets) && RestrictedTo(st, sets, st')
  }

  // What max-resolution makes of the problem.
  ghost predicate Resolved(c: Control, st: SoftState, c': Control, st': SoftState) {
    if Relaxes(c) then RelaxedSmall(c.cores, c.smallSetSize, st, c'.smallSetSize, st')
    else if c.corrSetEnabled && HasSmall(c.corrections, c.smallSetSize) then RestrictedSmall(c.corrections, st, st')
    else st' == st
  }
}
