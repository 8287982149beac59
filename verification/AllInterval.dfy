/** The all-interval series problem: its encoding over a grid of Booleans, and the enumeration of all solutions. */
module AllInterval {
  import opened Formulas
  import opened Lists
  import opened Oracle

  // Series: permutations of 0..n-1 whose neighbours are at pairwise different distances

  function Distance(x: nat, y: nat): nat {
    if x < y then y - x else x - y
  }

  function Distances(v: seq<nat>): (ds: seq<nat>) {
    if |v| < 2 then [] else seq(|v| - 1, j requires 0 <= j < |v| - 1 => Distance(v[j], v[j + 1]))
  }

  ghost predicate InRange(v: seq<nat>, n: nat) {
    |v| == n && forall i :: 0 <= i < n ==> v[i] < n
  }

  ghost predicate IsSeries(n: nat, v: seq<nat>) {
    InRange(v, n) && Distinct(v) && Distinct(Distances(v))
  }

  // The encoding

  function X(i: nat, j: nat): Formula {
    Var(Cell(i, j))
  }

  function Row(n: nat, i: nat): seq<Formula> {
    seq(n, j requires 0 <= j < n => X(i, j))
  }

  function Column(n: nat, j: nat): seq<Formula> {
    seq(n, i requires 0 <= i < n => X(i, j))
  }

  // The entries at j and j + 1 differ by i, downwards or upwards.
  function DiffAtJIsI(n: nat, j: nat, i: nat): Formula
    requires 1 <= i < n
  {
    OrAll(Downs(n, j, i) + Ups(n, j, i))
  }

  function Downs(n: nat, j: nat, i: nat): seq<Formula>
    requires i < n
  {
    seq(n - i, k requires 0 <= k < n - i => And(X(j, k + i), X(j + 1, k)))
  }

  function Ups(n: nat, j: nat, i: nat): seq<Formula>
    requires i < n
  {
    seq(n - i, k requires 0 <= k < n - i => And(X(j, k), X(j + 1, k + i)))
  }

  function Pairs(n: nat): nat {
    if n == 0 then 0 else n - 1
  }

  function DiffRow(n: nat, j: nat): seq<Formula> {
    seq(Pairs(n), i requires 0 <= i < Pairs(n) => DiffAtJIsI(n, j, i + 1))
  }

  function DiffColumn(n: nat, i: nat): seq<Formula>
    requires i < Pairs(n)
  {
    seq(Pairs(n), j requires 0 <= j < Pairs(n) => DiffAtJIsI(n, j, i + 1))
  }

  // At most one of the formulas holds.
  function AtMostOne(fs: seq<Formula>): Formula {
    if |fs| <= 1 then True
    else
      var last := |fs| - 1;
      And(AtMostOne(fs[..last]), Not(And(fs[last], OrAll(fs[..last]))))
  }

  lemma {:induction false} EvalAtMostOne(fs: seq<Formula>, a: Assignment)
    ensures Eval(AtMostOne(fs), a) <==> CountTrue(fs, a) <= 1
  {
    if |fs| > 1 {
      var last := |fs| - 1;
      EvalAtMostOne(fs[..last], a);
      EvalOrAll(fs[..last], a);
      CountTrueNone(fs[..last], a);
      assert Eval(And(fs[last], OrAll(fs[..last])), a) == (Eval(fs[last], a) && Eval(OrAll(fs[..last]), a));
    } else if |fs| == 1 {
      assert fs[..0] == [];
    }
  }

  // Exactly one holds: what the program asserts as at-most-one together with the disjunction.
  ghost predicate ExactlyOne(fs: seq<Formula>, a: Assignment) {
    exists k :: OnlyAt(fs, a, k)
  }

  ghost predicate OnlyAt(fs: seq<Formula>, a: Assignment, k: int) {
    0 <= k < |fs| && forall m :: 0 <= m < |fs| ==> (Eval(fs[m], a) <==> m == k)
  }

  lemma {:induction false} CountOne(fs: seq<Formula>, a: Assignment)
    ensures ExactlyOne(fs, a) <==> CountTrue(fs, a) == 1
  {
    if fs != [] {
      var last := |fs| - 1;
      CountOne(fs[..last], a);
      CountTrueNone(fs[..last], a);
      if ExactlyOne(fs, a) {
        var k :| OnlyAt(fs, a, k);
        if k == last {
          assert forall f :: f in fs[..last] ==> !Eval(f, a);
        } else {
          assert OnlyAt(fs[..last], a, k);
        }
      }
      if CountTrue(fs, a) == 1 {
        if Eval(fs[last], a) {
          assert forall m :: 0 <= m < last ==> fs[m] in fs[..last];
          assert OnlyAt(fs, a, last);
        } else {
          var k :| OnlyAt(fs[..last], a, k);
          assert forall m :: 0 <= m < last ==> fs[m] == fs[..last][m];
          assert OnlyAt(fs, a, k);
        }
      }
    }
  }

  lemma TwoAreNotOne(fs: seq<Formula>, a: Assignment, i: nat, k: nat)
    requires i < k < |fs| && Eval(fs[i], a) && Eval(fs[k], a)
    ensures !ExactlyOne(fs, a)
  {
    forall m
      ensures !OnlyAt(fs, a, m)
    {
    }
  }

  lemma AssertedOne(fs: seq<Formula>, a: Assignment)
    ensures Eval(AtMostOne(fs), a) && Eval(OrAll(fs), a) <==> ExactlyOne(fs, a)
  {
    EvalAtMostOne(fs, a);
    EvalOrAll(fs, a);
    CountTrueNone(fs, a);
    CountOne(fs, a);
  }

  // The constraints, as the program adds them
  ghost predicate IsModel(n: nat, a: Assignment) {
    && (forall i: nat :: i < n ==> ExactlyOne(Row(n, i), a))
    && (forall j: nat :: j < n ==> ExactlyOne(Column(n, j), a))
    && (forall j: nat :: j < Pairs(n) ==> ExactlyOne(DiffRow(n, j), a))
    && (forall i: nat :: i < Pairs(n) ==> ExactlyOne(DiffColumn(n, i), a))
  }

  // The assignment has the value v[i] in row i and nothing else on the grid.
  ghost predicate Represents(n: nat, a: Assignment, v: seq<nat>) {
    InRange(v, n) && forall i: nat, j: nat :: i < n && j < n ==> (Cell(i, j) in a <==> v[i] == j)
  }

  function Encode(v: seq<nat>): Assignment {
    set i | 0 <= i < |v| :: Cell(i, v[i])
  }

  lemma EncodeRepresents(n: nat, v: seq<nat>)
    requires InRange(v, n)
    ensures Represents(n, Encode(v), v)
  {
  }

  // Reading a model row by row

  lemma {:induction false} ReadRows(n: nat, a: Assignment, m: nat) returns (v: seq<nat>)
    requires m <= n && forall i: nat :: i < n ==> ExactlyOne(Row(n, i), a)
    ensures |v| == m && forall i :: 0 <= i < m ==> v[i] < n
    ensures forall i: nat, j: nat :: i < m && j < n ==> (Cell(i, j) in a <==> v[i] == j)
  {
    if m == 0 {
      v := [];
    } else {
      var i := m - 1;
      var w := ReadRows(n, a, i);
      var row := Row(n, i);
      assert ExactlyOne(row, a);
      var k :| OnlyAt(row, a, k);
      v := w + [k];
      forall j: nat | j < n
        ensures Cell(i, j) in a <==> k == j
      {
        assert Eval(row[j], a) <==> j == k;
      }
    }
  }

  lemma RowsOfRepresentation(n: nat, a: Assignment, v: seq<nat>, i: nat)
    requires Represents(n, a, v) && i < n
    ensures ExactlyOne(Row(n, i), a)
  {
    forall j | 0 <= j < n
      ensures Eval(Row(n, i)[j], a) <==> j == v[i]
    {
      assert Row(n, i)[j] == X(i, j);
    }
    assert OnlyAt(Row(n, i), a, v[i]);
  }

  // Distinct values in a range of their number take every value of it.
  lemma Pigeonhole(xs: seq<nat>, from: nat, x: nat)
    requires Distinct(xs) && forall i :: 0 <= i < |xs| ==> from <= xs[i] < from + |xs|
    requires from <= x < from + |xs|
    ensures x in xs
  {
    DistinctSize(xs);
    RangeSize(from, |xs|);
    forall y | y in ToSet(xs)
      ensures y in Range(from, |xs|)
    {
    }
    SubsetSize(ToSet(xs), Range(from, |xs|));
    assert x in Range(from, |xs|);
  }

  ghost function Range(from: nat, size: nat): (r: set<nat>)
    ensures forall y :: y in r <==> from <= y < from + size
  {
    if size == 0 then {} else Range(from, size - 1) + {from + size - 1}
  }

  lemma {:induction false} RangeSize(from: nat, size: nat)
    ensures |Range(from, size)| == size
  {
    if size > 0 {
      RangeSize(from, size - 1);
    }
  }

  // Every value occurs exactly once
  lemma ColumnsMeanDistinct(n: nat, a: Assignment, v: seq<nat>)
    requires Represents(n, a, v)
    ensures (forall j: nat :: j < n ==> ExactlyOne(Column(n, j), a)) <==> Distinct(v)
  {
    forall i: nat, j: nat | i < n && j < n
      ensures Eval(Column(n, j)[i], a) <==> v[i] == j
    {
      assert Column(n, j)[i] == X(i, j);
    }
    if Distinct(v) {
      forall j: nat | j < n
        ensures ExactlyOne(Column(n, j), a)
      {
        Pigeonhole(v, 0, j);
        var k :| 0 <= k < n && v[k] == j;
        assert OnlyAt(Column(n, j), a, k);
      }
    } else {
      var i, k :| 0 <= i < k < n && v[i] == v[k];
      TwoAreNotOne(Column(n, v[i]), a, i, k);
    }
  }

  /** The difference formula says what its name says. */
  lemma DiffMeans(n: nat, a: Assignment, v: seq<nat>, j: nat, i: nat)
    requires Represents(n, a, v) && j + 1 < n && 1 <= i < n
    ensures Eval(DiffAtJIsI(n, j, i), a) <==> Distance(v[j], v[j + 1]) == i
  {
    var down, up := Downs(n, j, i), Ups(n, j, i);
    EvalOrAll(down + up, a);
    forall k | 0 <= k < n - i
      ensures Eval(down[k], a) <==> v[j] == k + i && v[j + 1] == k
      ensures Eval(up[k], a) <==> v[j] == k && v[j + 1] == k + i
    {
      assert Eval(X(j, k + i), a) == (v[j] == k + i) && Eval(X(j + 1, k), a) == (v[j + 1] == k);
      assert Eval(X(j, k), a) == (v[j] == k) && Eval(X(j + 1, k + i), a) == (v[j + 1] == k + i);
    }
    if Distance(v[j], v[j + 1]) == i {
      if v[j] < v[j + 1] {
        assert up[v[j]] in down + up;
      } else {
        assert down[v[j + 1]] in down + up;
      }
    }
    if Eval(OrAll(down + up), a) {
      var f :| f in down + up && Eval(f, a);
      if f in down {
        var k :| 0 <= k < |down| && down[k] == f;
      } else {
        var k :| 0 <= k < |up| && up[k] == f;
      }
    }
  }

  lemma DiffRowsHold(n: nat, a: Assignment, v: seq<nat>, j: nat)
    requires Represents(n, a, v) && Distinct(v) && j < Pairs(n)
    ensures ExactlyOne(DiffRow(n, j), a)
  {
    var d := Distance(v[j], v[j + 1]);
    forall i | 0 <= i < Pairs(n)
      ensures Eval(DiffRow(n, j)[i], a) <==> i == d - 1
    {
      DiffMeans(n, a, v, j, i + 1);
    }
    assert OnlyAt(DiffRow(n, j), a, d - 1);
  }

  lemma DiffColumnMeans(n: nat, a: Assignment, v: seq<nat>, i: nat)
    requires Represents(n, a, v) && i < Pairs(n)
    ensures Marks(DiffColumn(n, i), a, Distances(v), i + 1)
  {
    forall j: nat | j < Pairs(n)
      ensures Eval(DiffColumn(n, i)[j], a) <==> Distances(v)[j] == i + 1
    {
      DiffMeans(n, a, v, j, i + 1);
    }
  }

  // The formulas are true where x occurs in xs.
  ghost predicate Marks(fs: seq<Formula>, a: Assignment, xs: seq<nat>, x: nat) {
    |fs| == |xs| && forall j :: 0 <= j < |fs| ==> (Eval(fs[j], a) <==> xs[j] == x)
  }

  lemma MarksOnce(fs: seq<Formula>, a: Assignment, xs: seq<nat>, x: nat)
    requires Marks(fs, a, xs, x) && Distinct(xs) && x in xs
    ensures ExactlyOne(fs, a)
  {
    var k :| 0 <= k < |xs| && xs[k] == x;
    assert OnlyAt(fs, a, k);
  }

  lemma DistancesRange(n: nat, v: seq<nat>)
    requires InRange(v, n) && Distinct(v)
    ensures |Distances(v)| == Pairs(n) && forall j :: 0 <= j < Pairs(n) ==> 1 <= Distances(v)[j] < 1 + Pairs(n)
  {
  }

  // Every distance occurs exactly once
  lemma DiffColumnsMeanDistinct(n: nat, a: Assignment, v: seq<nat>)
    requires Represents(n, a, v) && Distinct(v)
    ensures (forall i: nat :: i < Pairs(n) ==> ExactlyOne(DiffColumn(n, i), a)) <==> Distinct(Distances(v))
  {
    var ds := Distances(v);
    DistancesRange(n, v);
    if Distinct(ds) {
      forall i: nat | i < Pairs(n)
        ensures ExactlyOne(DiffColumn(n, i), a)
      {
        Pigeonhole(ds, 1, i + 1);
        DiffColumnMeans(n, a, v, i);
        MarksOnce(DiffColumn(n, i), a, ds, i + 1);
      }
    } else {
      var j, k :| 0 <= j < k < |ds| && ds[j] == ds[k];
      var i: nat := ds[j] - 1;
      DiffColumnMeans(n, a, v, i);
      TwoAreNotOne(DiffColumn(n, i), a, j, k);
    }
  }

  /** An assignment is a model of the encoding exactly when its grid shows an all-interval series. */
  lemma ModelsAreSeries(n: nat, a: Assignment)
    ensures IsModel(n, a) <==> exists v :: IsSeries(n, v) && Represents(n, a, v)
  {
    if IsModel(n, a) {
      var v := ReadRows(n, a, n);
      ColumnsMeanDistinct(n, a, v);
      DiffColumnsMeanDistinct(n, a, v);
      assert IsSeries(n, v) && Represents(n, a, v);
    }
    if v :| IsSeries(n, v) && Represents(n, a, v) {
      SeriesIsModel(n, a, v);
    }
  }

  lemma SeriesIsModel(n: nat, a: Assignment, v: seq<nat>)
    requires IsSeries(n, v) && Represents(n, a, v)
    ensures IsModel(n, a)
  {
    forall i: nat | i < n
      ensures ExactlyOne(Row(n, i), a)
    {
      RowsOfRepresentation(n, a, v, i);
    }
    forall j: nat | j < Pairs(n)
      ensures ExactlyOne(DiffRow(n, j), a)
    {
      DiffRowsHold(n, a, v, j);
    }
    ColumnsMeanDistinct(n, a, v);
    DiffColumnsMeanDistinct(n, a, v);
  }

  lemma RepresentsUnique(n: nat, a: Assignment, v: seq<nat>, w: seq<nat>)
    requires Represents(n, a, v) && Represents(n, a, w)
    ensures v == w
  {
    forall i | 0 <= i < n
      ensures v[i] == w[i]
    {
      assert Cell(i, v[i]) in a;
    }
  }

  // Building the solver

  ghost predicate AllOne(lists: seq<seq<Formula>>, a: Assignment) {
    forall k :: 0 <= k < |lists| ==> ExactlyOne(lists[k], a)
  }

  // The assertions say that exactly one formula of each list holds.
  ghost predicate Means(asserted: seq<Formula>, lists: seq<seq<Formula>>) {
    forall a :: Holds(asserted, a) <==> AllOne(lists, a)
  }

  function Rows(n: nat): seq<seq<Formula>> {
    seq(n, i requires 0 <= i < n => Row(n, i))
  }

  function Columns(n: nat): seq<seq<Formula>> {
    seq(n, j requires 0 <= j < n => Column(n, j))
  }

  function DiffRows(n: nat): seq<seq<Formula>> {
    seq(Pairs(n), j requires 0 <= j < Pairs(n) => DiffRow(n, j))
  }

  function DiffColumns(n: nat): seq<seq<Formula>> {
    seq(Pairs(n), i requires 0 <= i < Pairs(n) => DiffColumn(n, i))
  }

  method AddExactlyOne(s: Solver, fs: seq<Formula>, ghost lists: seq<seq<Formula>>)
    requires Means(s.asserted, lists)
    modifies s
    ensures Means(s.asserted, lists + [fs])
  {
    ghost var before := s.asserted;
    s.Assert(AtMostOne(fs));
    s.Assert(OrAll(fs));
    forall a
      ensures Holds(s.asserted, a) <==> AllOne(lists + [fs], a)
    {
      HoldsAppend(before, [AtMostOne(fs)], a);
      HoldsAppend(before + [AtMostOne(fs)], [OrAll(fs)], a);
      AssertedOne(fs, a);
      AllOneSnoc(lists, fs, a);
    }
  }

  lemma AllOneSnoc(lists: seq<seq<Formula>>, fs: seq<Formula>, a: Assignment)
    ensures AllOne(lists + [fs], a) <==> AllOne(lists, a) && ExactlyOne(fs, a)
  {
    var all := lists + [fs];
    assert all[|lists|] == fs;
    assert forall k :: 0 <= k < |lists| ==> all[k] == lists[k];
  }

  // Adds every list of a family in turn.
  method AddFamily(s: Solver, family: seq<seq<Formula>>, ghost lists: seq<seq<Formula>>)
    requires Means(s.asserted, lists)
    modifies s
    ensures Means(s.asserted, lists + family)
  {
    var k := 0;
    assert lists + family[..0] == lists;
    while k < |family|
      invariant k <= |family|
      invariant Means(s.asserted, lists + family[..k])
    {
      AddExactlyOne(s, family[k], lists + family[..k]);
      assert lists + family[..k] + [family[k]] == lists + family[..k + 1];
      k := k + 1;
    }
    assert family[..k] == family;
  }

  /** The solver's models are exactly the models of the encoding. */
  method Ais(n: nat) returns (s: Solver)
    ensures fresh(s) && forall a :: Holds(s.asserted, a) <==> IsModel(n, a)
  {
    s := new Solver();
    AddFamily(s, Rows(n), []);
    AddFamily(s, Columns(n), [] + Rows(n));
    AddFamily(s, DiffRows(n), [] + Rows(n) + Columns(n));
    AddFamily(s, DiffColumns(n), [] + Rows(n) + Columns(n) + DiffRows(n));
    forall a
      ensures Holds(s.asserted, a) <==> IsModel(n, a)
    {
      FamiliesMeanModel(n, a);
    }
  }

  lemma AllOneAppend(lists: seq<seq<Formula>>, more: seq<seq<Formula>>, a: Assignment)
    ensures AllOne(lists + more, a) <==> AllOne(lists, a) && AllOne(more, a)
  {
    var all := lists + more;
    assert forall k :: 0 <= k < |lists| ==> all[k] == lists[k];
    assert forall k :: 0 <= k < |more| ==> all[|lists| + k] == more[k];
    if AllOne(all, a) {
      forall k | 0 <= k < |more|
        ensures ExactlyOne(more[k], a)
      {
        assert ExactlyOne(all[|lists| + k], a);
      }
    }
    if AllOne(lists, a) && AllOne(more, a) {
      forall k | 0 <= k < |all|
        ensures ExactlyOne(all[k], a)
      {
        if k >= |lists| {
          assert all[k] == more[k - |lists|];
        }
      }
    }
  }

  lemma RowsMean(n: nat, a: Assignment)
    ensures AllOne(Rows(n), a) <==> forall i: nat :: i < n ==> ExactlyOne(Row(n, i), a)
  {
    var family := Rows(n);
    assert forall i: nat :: i < n ==> family[i] == Row(n, i);
  }

  lemma ColumnsMean(n: nat, a: Assignment)
    ensures AllOne(Columns(n), a) <==> forall j: nat :: j < n ==> ExactlyOne(Column(n, j), a)
  {
    var family := Columns(n);
    assert forall j: nat :: j < n ==> family[j] == Column(n, j);
  }

  lemma DiffRowsMean(n: nat, a: Assignment)
    ensures AllOne(DiffRows(n), a) <==> forall j: nat :: j < Pairs(n) ==> ExactlyOne(DiffRow(n, j), a)
  {
    var family := DiffRows(n);
    assert forall j: nat :: j < Pairs(n) ==> family[j] == DiffRow(n, j);
  }

  lemma DiffColumnsMean(n: nat, a: Assignment)
    ensures AllOne(DiffColumns(n), a) <==> forall i: nat :: i < Pairs(n) ==> ExactlyOne(DiffColumn(n, i), a)
  {
    var family := DiffColumns(n);
    assert forall i: nat :: i < Pairs(n) ==> family[i] == DiffColumn(n, i);
  }

  lemma FamiliesMeanModel(n: nat, a: Assignment)
    ensures AllOne([] + Rows(n) + Columns(n) + DiffRows(n) + DiffColumns(n), a) <==> IsModel(n, a)
  {
    AllOneAppend([] + Rows(n) + Columns(n) + DiffRows(n), DiffColumns(n), a);
    AllOneAppend([] + Rows(n) + Columns(n), DiffRows(n), a);
    AllOneAppend([] + Rows(n), Columns(n), a);
    AllOneAppend([], Rows(n), a);
    RowsMean(n, a);
    ColumnsMean(n, a);
    DiffRowsMean(n, a);
    DiffColumnsMean(n, a);
  }

  // Enumerating

  function Block(v: seq<nat>): seq<Formula> {
    seq(|v|, i requires 0 <= i < |v| => X(i, v[i]))
  }

  /** Reads the series off a model; the assertion that a row has one entry never fails. */
  method ProcessModel(m: Assignment, n: nat, ghost v: seq<nat>) returns (block: seq<Formula>, values: seq<int>)
    requires Represents(n, m, v)
    ensures values == v && block == Block(v)
  {
    block, values := [], [];
    var i := 0;
    while i < n
      invariant 0 <= i <= n
      invariant values == v[..i] && block == Block(v[..i])
    {
      var k := -1;
      var j := 0;
      while j < n
        invariant 0 <= j <= n
        invariant k == if v[i] < j then v[i] else -1
        invariant values == v[..i] && block == Block(v[..i]) + if v[i] < j then [X(i, v[i])] else []
      {
        if Eval(X(i, j), m) {
          assert k == -1;
          block := block + [X(i, j)];
          k := j;
        }
        j := j + 1;
      }
      values := values + [k];
      assert Block(v[..i + 1]) == Block(v[..i]) + [X(i, v[i])];
      i := i + 1;
    }
    assert v[..i] == v;
  }

  /** The blocking clause of a series excludes that series and no other. */
  lemma BlockingExact(n: nat, v: seq<nat>, w: seq<nat>, a: Assignment)
    requires InRange(v, n) && Represents(n, a, w)
    ensures Eval(Not(AndAll(Block(v))), a) <==> v != w
  {
    EvalAndAll(Block(v), a);
    var block := Block(v);
    forall i | 0 <= i < n
      ensures block[i] in block && (Eval(block[i], a) <==> v[i] == w[i])
    {
      assert block[i] == X(i, v[i]);
    }
    if Holds(block, a) {
      assert forall i :: 0 <= i < n ==> v[i] == w[i];
    }
  }

  // The lists of length m over 0..n-1.
  ghost function Space(n: nat, m: nat): set<seq<nat>> {
    if m == 0 then {[]} else set v, x | v in Space(n, m - 1) && x in Range(0, n) :: v + [x]
  }

  lemma {:induction false} SpaceMembers(n: nat, v: seq<nat>)
    requires forall i :: 0 <= i < |v| ==> v[i] < n
    ensures v in Space(n, |v|)
  {
    if v != [] {
      var init, x := v[..|v| - 1], v[|v| - 1];
      SpaceMembers(n, init);
      assert v == init + [x] && x in Range(0, n);
    }
  }

  // What has been counted so far: series, each blocked in the solver, and nothing else blocked.
  ghost predicate Enumerated(n: nat, asserted: seq<Formula>, found: set<seq<nat>>) {
    && (forall v :: v in found ==> IsSeries(n, v))
    && (forall a :: Holds(asserted, a) <==> IsModel(n, a) && forall v :: v in found ==> !Represents(n, a, v))
  }

  lemma EnumerateNext(n: nat, asserted: seq<Formula>, found: set<seq<nat>>, v: seq<nat>)
    requires Enumerated(n, asserted, found) && IsSeries(n, v)
    ensures Enumerated(n, asserted + [Not(AndAll(Block(v)))], found + {v})
  {
    var clause := Not(AndAll(Block(v)));
    forall a
      ensures Holds(asserted + [clause], a) <==> IsModel(n, a) && forall w :: w in found + {v} ==> !Represents(n, a, w)
    {
      HoldsAppend(asserted, [clause], a);
      ModelsAreSeries(n, a);
      if IsModel(n, a) {
        var w :| IsSeries(n, w) && Represents(n, a, w);
        BlockingExact(n, v, w, a);
        if Represents(n, a, v) {
          RepresentsUnique(n, a, v, w);
        }
      }
    }
  }

  lemma EnumerationComplete(n: nat, asserted: seq<Formula>, found: set<seq<nat>>, v: seq<nat>)
    requires Enumerated(n, asserted, found) && !Satisfiable(asserted) && IsSeries(n, v)
    ensures v in found
  {
    EncodeRepresents(n, v);
    SeriesIsModel(n, Encode(v), v);
    assert !Holds(asserted, Encode(v));
    var w :| w in found && Represents(n, Encode(v), w);
    RepresentsUnique(n, Encode(v), v, w);
  }

  /** Prints every all-interval series exactly once, and counts them. */
  method AllModels(n: nat) returns (count: nat, printed: seq<seq<nat>>)
    ensures Distinct(printed) && forall v :: v in printed <==> IsSeries(n, v)
    ensures count == |printed|
  {
    count, printed := 0, [];
    var s := Ais(n);
    while true
      invariant fresh(s) && Enumerated(n, s.asserted, ToSet(printed))
      invariant Distinct(printed) && count == |printed|
      decreases Space(n, n) - ToSet(printed)
    {
      var isSat := s.Check([]);
      if isSat.Unsat? {
        assert forall a :: Holds(isSat.core, a);
        forall v | IsSeries(n, v)
          ensures v in printed
        {
          EnumerationComplete(n, s.asserted, ToSet(printed), v);
        }
        assert forall v :: v in printed ==> v in ToSet(printed);
        return;
      }
      ModelsAreSeries(n, isSat.model);
      ghost var v :| IsSeries(n, v) && Represents(n, isSat.model, v);
      SpaceMembers(n, v);
      NotPrintedYet(n, s.asserted, printed, v, isSat.model);
      var block, values := ProcessModel(isSat.model, n, v);
      EnumerateNext(n, s.asserted, ToSet(printed), v);
      s.Assert(Not(AndAll(block)));
      count := count + 1;
      printed := printed + [values];
    }
  }

  lemma NotPrintedYet(n: nat, asserted: seq<Formula>, printed: seq<seq<nat>>, v: seq<nat>, m: Assignment)
    requires Enumerated(n, asserted, ToSet(printed)) && Distinct(printed) && Holds(asserted, m) && Represents(n, m, v)
    ensures v !in ToSet(printed) && Distinct(printed + [v]) && ToSet(printed + [v]) == ToSet(printed) + {v}
  {
    assert forall i :: 0 <= i < |printed| ==> printed[i] in ToSet(printed);
    ToSetSnoc(printed, v);
  }
}
