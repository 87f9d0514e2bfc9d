/**
 The elimination on rows of any lengths. An index out of a row's range panics in the source and is
 `None` here; matrix rows are combined up to the shorter of the two, data rows along the whole row.

 On rows that fit together this is the elimination of `Elimination`, and for a matrix of independent
 rows there is no other way to get through it.
 */
module PartialElimination {
  import opened Elimination
  import opened GF256
  import opened LinearAlgebra
  import opened Wrappers

  type System = (Matrix, Matrix)

  function Min(a: nat, b: nat): nat { if a < b then a else b }

  // The pivot search, from row `p` on.
  function Search(m: Matrix, i: nat, p: nat): (r: Option<nat>)
    requires p <= |m|
    ensures r.Some? ==> p <= r.value <= |m|
    ensures r.Some? && r.value < |m| ==> i < |m[r.value]| && m[r.value][i] != 0
    decreases |m| - p
  {
    if p == |m| then Some(p)
    else if |m[p]| <= i then None
    else if m[p][i] != 0 then Some(p)
    else Search(m, i, p + 1)
  }

  // Row `i` can be subtracted from every other row.
  predicate InRange(m: Matrix, data: Matrix, i: nat)
    requires i < |m| == |data|
  {
    forall k :: 0 <= k < |m| && k != i ==> i < |m[k]| && |data[k]| <= |data[i]|
  }

  // What dividing row `i` by its pivot and subtracting it makes of matrix and data.
  function Cleared(m: Matrix, data: Matrix, i: nat): (r: System)
    requires i < |m| == |data| && InRange(m, data, i) && i < |m[i]| && m[i][i] != 0
    ensures |r.0| == |r.1| == |m|
  {
    var n, inv := |m|, Inverse(m[i][i]);
    var top, dataTop := ScaleRow(m[i], inv, Min(n, |m[i]|)), ScaleRow(data[i], inv, |data[i]|);
    (seq(n, k requires 0 <= k < n =>
       if k == i then top else AddRow(m[k], m[k][i], top, Min(n, Min(|m[k]|, |top|)))),
     seq(n, k requires 0 <= k < n =>
       if k == i then dataTop else AddRow(data[k], m[k][i], dataTop, |data[k]|)))
  }

  function Step(m: Matrix, data: Matrix, i: nat): (r: Option<System>)
    requires i < |m| == |data|
    ensures r.Some? ==> |r.value.0| == |r.value.1| == |m|
  {
    match Search(m, i, i)
    case None => None
    case Some(p) =>
      if p == |m| then Some((m, data))
      else
        var m1, data1 := Swap(m, i, p), Swap(data, i, p);
        if InRange(m1, data1, i) then Some(Cleared(m1, data1, i)) else None
  }

  // The first `c` columns.
  function Eliminate(m: Matrix, data: Matrix, c: nat): (r: Option<System>)
    requires c <= |m| == |data|
    ensures r.Some? ==> |r.value.0| == |r.value.1| == |m|
  {
    if c == 0 then Some((m, data))
    else
      match Eliminate(m, data, c - 1)
      case None => None
      case Some((m', data')) => Step(m', data', c - 1)
  }

  // The first row from `i` on with a nonzero entry in column `i`, and no row too short before it.
  ghost predicate IsPivot(m: Matrix, i: nat, p: nat) {
    && i <= p < |m| && i < |m[p]| && m[p][i] != 0
    && forall r :: i <= r < p ==> i < |m[r]| && m[r][i] == 0
  }

  // The row that stands at `k` once rows `i` and `p` are swapped.
  function From(i: nat, p: nat, k: nat): nat { if k == i then p else if k == p then i else k }

  // Entry by entry, what a column step makes of matrix rows of any lengths: the pivot row is divided by the
  // pivot, and every other row loses its multiple of the result. Columns past the number of rows or past the
  // shorter of the two rows stay as they are.
  lemma StepEntries(m: Matrix, data: Matrix, i: nat, p: nat, k: nat, j: nat)
    requires |data| == |m| && IsPivot(m, i, p) && Step(m, data, i).Some?
    requires k < |m| && j < |m[From(i, p, k)]|
    ensures var row, m' := m[From(i, p, k)], Step(m, data, i).value.0;
      && |m'[k]| == |row| && i < |row|
      && m'[k][j] ==
           if j >= |m| || j >= |m[p]| then row[j]
           else
             var top := Mul(m[p][j], Inverse(m[p][i]));
             if k == i then top else Add(row[j], Mul(row[i], top))
  {
    StepClears(m, data, i, p);
    var m1, data1 := Swap(m, i, p), Swap(data, i, p);
    assert m1[k] == m[From(i, p, k)] && m1[i] == m[p];
    hide Mul, Add, Inverse, Step, Search, Cleared, Swap, IsPivot, From;
    ClearedEntry(m1, data1, i, k, j);
  }

  lemma ClearedEntry(m: Matrix, data: Matrix, i: nat, k: nat, j: nat)
    requires i < |m| == |data| && InRange(m, data, i) && i < |m[i]| && m[i][i] != 0
    requires k < |m| && j < |m[k]|
    ensures var m' := Cleared(m, data, i).0;
      && |m'[k]| == |m[k]| && i < |m[k]|
      && m'[k][j] ==
           if j >= |m| || j >= |m[i]| then m[k][j]
           else
             var top := Mul(m[i][j], Inverse(m[i][i]));
             if k == i then top else Add(m[k][j], Mul(m[k][i], top))
  {
    hide Mul, Add, Inverse;
  }

  // And of data rows, which are combined along their whole length.
  lemma StepDataEntries(m: Matrix, data: Matrix, i: nat, p: nat, k: nat, j: nat)
    requires |data| == |m| && IsPivot(m, i, p) && Step(m, data, i).Some?
    requires k < |m| && j < |data[From(i, p, k)]|
    ensures var row, coeffs, d' := data[From(i, p, k)], m[From(i, p, k)], Step(m, data, i).value.1;
      && |d'[k]| == |row| && j < |data[p]| && i < |coeffs|
      && d'[k][j] ==
           var top := Mul(data[p][j], Inverse(m[p][i]));
           if k == i then top else Add(row[j], Mul(coeffs[i], top))
  {
    StepClears(m, data, i, p);
    var m1, data1 := Swap(m, i, p), Swap(data, i, p);
    assert m1[k] == m[From(i, p, k)] && data1[k] == data[From(i, p, k)] && m1[i] == m[p] && data1[i] == data[p];
    hide Mul, Add, Inverse, Step, Search, Swap, IsPivot, From;
  }

  lemma StepClears(m: Matrix, data: Matrix, i: nat, p: nat)
    requires |data| == |m| && IsPivot(m, i, p) && Step(m, data, i).Some?
    ensures InRange(Swap(m, i, p), Swap(data, i, p), i)
    ensures Step(m, data, i) == Some(Cleared(Swap(m, i, p), Swap(data, i, p), i))
  {
    SearchFinds(m, i, i, p);
  }

  lemma {:induction false} SearchFinds(m: Matrix, i: nat, from: nat, p: nat)
    requires i <= from <= p < |m| && i < |m[p]| && m[p][i] != 0
    requires forall r :: from <= r < p ==> i < |m[r]| && m[r][i] == 0
    ensures Search(m, i, from) == Some(p)
    decreases p - from
  {
    if from < p { SearchFinds(m, i, from + 1, p); }
  }

  // ---------- rows that fit together ----------

  // Rows of the matrix at least as wide as there are rows, and data rows of one length `w`.
  ghost predicate Solvable(m: Matrix, data: Matrix, w: nat) {
    Square(m) && |data| == |m| && Uniform(data, w)
  }

  lemma {:induction false} SearchIsPivot(m: Matrix, i: nat, p: nat)
    requires Wide(m, i + 1) && p <= |m|
    ensures Search(m, i, p) == Some(Pivot(m, i, p))
    decreases |m| - p
  {
    if p < |m| && m[p][i] == 0 { SearchIsPivot(m, i, p + 1); }
  }

  // Whatever the data rows are, the matrix goes through the column step.
  lemma StepOnMatrix(m: Matrix, data: Matrix, i: nat)
    requires Square(m) && i < |m| == |data| && Step(m, data, i).Some?
    ensures Step(m, data, i).value.0 == OpRows(m, i, m, |m|)
  {
    hide Mul, Add, Inverse;
    SearchIsPivot(m, i, i);
  }

  lemma StepOnSolvable(m: Matrix, data: Matrix, i: nat, w: nat)
    requires Solvable(m, data, w) && i < |m|
    ensures Step(m, data, i) == Some((OpRows(m, i, m, |m|), OpRows(m, i, data, w)))
  {
    hide Mul, Add, Inverse;
    SearchIsPivot(m, i, i);
    if Pivot(m, i, i) < |m| {
      var d := Step(m, data, i).value.1;
      assert d == OpRows(m, i, data, w);
      StepOnMatrix(m, data, i);
    }
  }

  lemma {:induction false} EliminateOnSolvable(m: Matrix, data: Matrix, c: nat, w: nat)
    requires Solvable(m, data, w) && c <= |m|
    ensures Eliminate(m, data, c) == Some((Reduce(m, c), ReduceRows(m, c, data, w)))
  {
    hide Step, OpRows;
    if c > 0 {
      EliminateOnSolvable(m, data, c - 1, w);
      StepOnSolvable(Reduce(m, c - 1), ReduceRows(m, c - 1, data, w), c - 1, w);
    }
  }

  lemma {:induction false} EliminateOnMatrix(m: Matrix, data: Matrix, c: nat)
    requires Square(m) && c <= |m| == |data| && Eliminate(m, data, c).Some?
    ensures Eliminate(m, data, c).value.0 == Reduce(m, c)
  {
    hide Step, OpRows;
    if c > 0 {
      EliminateOnMatrix(m, data, c - 1);
      StepOnMatrix(Reduce(m, c - 1), Eliminate(m, data, c - 1).value.1, c - 1);
    }
  }

  // ---------- data rows of different lengths ----------

  // The first `c` rows have length `w` and no other row is longer.
  ghost predicate Longest(data: Matrix, c: nat, w: nat)
    requires c <= |data|
  {
    forall k :: 0 <= k < |data| ==> if k < c then |data[k]| == w else |data[k]| <= w
  }

  // A pivot row is as long as any, and lengths are only swapped.
  lemma StepSwapsLengths(m: Matrix, data: Matrix, i: nat)
    requires Square(m) && i < |m| == |data| && Pivot(m, i, i) < |m| && Step(m, data, i).Some?
    ensures var d, d1 := Step(m, data, i).value.1, Swap(data, i, Pivot(m, i, i));
      forall k :: 0 <= k < |m| ==> |d[k]| == |d1[k]| <= |d1[i]|
  {
    hide Mul, Add, Inverse;
    SearchIsPivot(m, i, i);
  }

  lemma SwappedLengths(data: Matrix, d: Matrix, i: nat, p: nat, w: nat)
    requires i <= p < |data| == |d| && (i > 0 ==> Longest(data, i, w))
    requires forall k :: 0 <= k < |d| ==> |d[k]| == |Swap(data, i, p)[k]| <= |Swap(data, i, p)[i]|
    ensures Longest(d, i + 1, if i == 0 then |d[0]| else w)
    ensures forall v :: Uniform(d, v) ==> Uniform(data, v)
  {
    var d1 := Swap(data, i, p);
    if i > 0 { assert d1[0] == data[0] && |d1[i]| == w; }
    forall v | Uniform(d, v) ensures Uniform(data, v) {
      forall k | 0 <= k < |data| ensures |data[k]| == v {
        assert |d[k]| == |d1[k]| && |d[i]| == |d1[i]| && |d[p]| == |d1[p]|;
      }
    }
  }

  lemma StepLengths(m: Matrix, data: Matrix, i: nat, w: nat)
    requires Square(m) && i < |m| == |data| && Pivot(m, i, i) < |m|
    requires Step(m, data, i).Some? && (i > 0 ==> Longest(data, i, w))
    ensures var d := Step(m, data, i).value.1;
      && Longest(d, i + 1, if i == 0 then |d[0]| else w)
      && forall v :: Uniform(d, v) ==> Uniform(data, v)
  {
    StepSwapsLengths(m, data, i);
    hide Step, Square, Pivot, Longest, Swap;
    SwappedLengths(data, Step(m, data, i).value.1, i, Pivot(m, i, i), w);
  }

  lemma {:induction false} EliminateLengths(m: Matrix, data: Matrix, c: nat) returns (w: nat)
    requires Square(m) && 0 < c <= |m| == |data| && PivotsBefore(m, c) && Eliminate(m, data, c).Some?
    ensures Longest(Eliminate(m, data, c).value.1, c, w)
    ensures forall v :: Uniform(Eliminate(m, data, c).value.1, v) ==> Uniform(data, v)
  {
    hide Step, OpRows, Longest;
    EliminateOnMatrix(m, data, c - 1);
    w := 0;
    if c > 1 { w := EliminateLengths(m, data, c - 1); }
    StepLengths(Reduce(m, c - 1), Eliminate(m, data, c - 1).value.1, c - 1, w);
    if c == 1 { w := |Eliminate(m, data, c).value.1[0]|; }
  }

  // With independent coefficient vectors, the elimination gets through exactly when all data rows have
  // the same length.
  lemma GetsThroughIffUniform(m: Matrix, data: Matrix)
    requires Square(m) && |data| == |m| && TrivialKernel(m)
    ensures Eliminate(m, data, |m|).Some? <==> exists w :: Uniform(data, w)
  {
    if w :| Uniform(data, w) { EliminateOnSolvable(m, data, |m|, w); }
    if Eliminate(m, data, |m|).Some? && m != [] {
      IdentityIffTrivialKernel(m);
      var w := EliminateLengths(m, data, |m|);
      assert Uniform(Eliminate(m, data, |m|).value.1, w);
    }
    if m == [] { assert Uniform(data, 0); }
  }
}
