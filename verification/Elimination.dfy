/**
 Gauss-Jordan elimination as the coder runs it: for each column a pivot search, a row swap, a
 normalisation and the clearing of the column in every other row, done to two arrays in lockstep.

 `OpRows` is what one column does to either array and `OpColumn` what it does to one column of it.
 Every theorem follows from two facts: the two agree (`OpRowsOnProducts`), and `OpColumn` is injective.
 */
module Elimination {
  import opened GF256
  import opened LinearAlgebra

  // ---------- one column ----------

  // The first row from `p` on with a nonzero entry in column `i`; the number of rows if there is none.
  function Pivot(m: Matrix, i: nat, p: nat): (r: nat)
    requires Wide(m, i + 1) && p <= |m|
    ensures p <= r <= |m|
    ensures r < |m| ==> m[r][i] != 0
    ensures forall k :: p <= k < r ==> m[k][i] == 0
    decreases |m| - p
  {
    if p == |m| || m[p][i] != 0 then p else Pivot(m, i, p + 1)
  }

  function Swap<T>(s: seq<T>, i: nat, p: nat): (r: seq<T>)
    requires i < |s| && p < |s|
  {
    s[i := s[p]][p := s[i]]
  }

  function ScaleRow(row: Vec, c: Byte, w: nat): (r: Vec)
    requires w <= |row|
    ensures |r| == |row|
  {
    seq(|row|, j requires 0 <= j < |row| => if j < w then Mul(row[j], c) else row[j])
  }

  function AddRow(row: Vec, f: Byte, top: Vec, w: nat): (r: Vec)
    requires w <= |row| && w <= |top|
    ensures |r| == |row|
  {
    seq(|row|, j requires 0 <= j < |row| => if j < w then Add(row[j], Mul(f, top[j])) else row[j])
  }

  ghost predicate CanOperate(m: Matrix, i: nat) {
    i < |m| && Wide(m, i + 1)
  }

  // Column `i` of `m` decides what happens to the leading `w` columns of `rows`.
  function OpRows(m: Matrix, i: nat, rows: Matrix, w: nat): (r: Matrix)
    requires CanOperate(m, i) && |rows| == |m| && Wide(rows, w)
    ensures |r| == |m| && Wide(r, w)
    ensures Uniform(rows, w) ==> Uniform(r, w)
  {
    var p := Pivot(m, i, i);
    if p == |m| then rows else
      var m1, rows1 := Swap(m, i, p), Swap(rows, i, p);
      var top := ScaleRow(rows1[i], Inverse(m1[i][i]), w);
      seq(|m|, k requires 0 <= k < |m| => if k == i then top else AddRow(rows1[k], m1[k][i], top, w))
  }

  function OpColumn(m: Matrix, i: nat, v: Vec): (r: Vec)
    requires CanOperate(m, i) && |v| == |m|
    ensures |r| == |m|
  {
    var p := Pivot(m, i, i);
    if p == |m| then v else
      var m1, v1 := Swap(m, i, p), Swap(v, i, p);
      var top := Mul(v1[i], Inverse(m1[i][i]));
      seq(|m|, k requires 0 <= k < |m| => if k == i then top else Add(v1[k], Mul(m1[k][i], top)))
  }

  lemma OpRowsOnColumns(m: Matrix, i: nat, rows: Matrix, w: nat, j: nat)
    requires CanOperate(m, i) && |rows| == |m| && Wide(rows, w) && j < w
    ensures Column(OpRows(m, i, rows, w), j) == OpColumn(m, i, Column(rows, j))
  {
    hide Mul, Add, Inverse;
  }

  lemma OpRowsOnProducts(m: Matrix, i: nat, rows: Matrix, w: nat, x: Vec)
    requires CanOperate(m, i) && |rows| == |m| && Wide(rows, w) && w <= |x|
    ensures Times(OpRows(m, i, rows, w), w, x) == OpColumn(m, i, Times(rows, w, x))
  {
    hide Mul, Add, Inverse;
    var p := Pivot(m, i, i);
    if p < |m| {
      var m1, rows1 := Swap(m, i, p), Swap(rows, i, p);
      var top := ScaleRow(rows1[i], Inverse(m1[i][i]), w);
      DotScale(Inverse(m1[i][i]), rows1[i], top, x, w);
      forall k | 0 <= k < |m|
        ensures Times(OpRows(m, i, rows, w), w, x)[k] == OpColumn(m, i, Times(rows, w, x))[k]
      {
        if k != i {
          DotAddScaled(m1[k][i], rows1[k], top, AddRow(rows1[k], m1[k][i], top, w), x, w);
        }
      }
    }
  }

  lemma OpColumnInjective(m: Matrix, i: nat, u: Vec, v: Vec)
    requires CanOperate(m, i) && |u| == |v| == |m|
    requires OpColumn(m, i, u) == OpColumn(m, i, v)
    ensures u == v
  {
    hide Mul, Add, Inverse;
    var p := Pivot(m, i, i);
    if p < |m| {
      var m1, u1, v1 := Swap(m, i, p), Swap(u, i, p), Swap(v, i, p);
      var d := Inverse(m1[i][i]);
      var u', v' := OpColumn(m, i, u), OpColumn(m, i, v);
      forall k | 0 <= k < |m| ensures u1[k] == v1[k] {
        if k == i {
          MulCancel(u1[i], v1[i], m1[i][i]);
        } else {
          AddCancel(u1[k], Mul(m1[k][i], u'[i]));
          AddCancel(v1[k], Mul(m1[k][i], v'[i]));
          assert u'[k] == Add(u1[k], Mul(m1[k][i], u'[i]));
          assert v'[k] == Add(v1[k], Mul(m1[k][i], v'[i]));
        }
      }
      assert u == Swap(u1, i, p) && v == Swap(v1, i, p);
      assert u1 == v1;
    }
  }

  lemma MulCancel(a: Byte, b: Byte, d: Byte)
    requires d != 0
    requires Mul(a, Inverse(d)) == Mul(b, Inverse(d))
    ensures a == b
  {
    hide Mul, Inverse;
    MulAssoc(a, Inverse(d), d);
    MulAssoc(b, Inverse(d), d);
    MulComm(d, Inverse(d));
    MulOne(a);
    MulOne(b);
  }

  lemma OpColumnZero(m: Matrix, i: nat)
    requires CanOperate(m, i)
    ensures OpColumn(m, i, Zeros(|m|)) == Zeros(|m|)
  {
    hide Mul, Add, Inverse;
    var p := Pivot(m, i, i);
    if p < |m| {
      var m1 := Swap(m, i, p);
      MulZero(Inverse(m1[i][i]));
      AddLaws(0, 0, 0);
      forall k | 0 <= k < |m| ensures Mul(m1[k][i], 0) == 0 { MulZero(m1[k][i]); }
    }
  }

  // ---------- the first `c` columns ----------

  ghost predicate Square(m: Matrix) { Wide(m, |m|) }

  function Reduce(m: Matrix, c: nat): (r: Matrix)
    requires Square(m) && c <= |m|
    ensures |r| == |m| && Square(r)
  {
    if c == 0 then m else OpRows(Reduce(m, c - 1), c - 1, Reduce(m, c - 1), |m|)
  }

  function ReduceRows(m: Matrix, c: nat, rows: Matrix, w: nat): (r: Matrix)
    requires Square(m) && c <= |m| == |rows| && Wide(rows, w)
    ensures |r| == |m| && Wide(r, w)
    ensures Uniform(rows, w) ==> Uniform(r, w)
  {
    if c == 0 then rows else OpRows(Reduce(m, c - 1), c - 1, ReduceRows(m, c - 1, rows, w), w)
  }

  function ReduceColumn(m: Matrix, c: nat, v: Vec): (r: Vec)
    requires Square(m) && c <= |m| == |v|
    ensures |r| == |m|
  {
    if c == 0 then v else OpColumn(Reduce(m, c - 1), c - 1, ReduceColumn(m, c - 1, v))
  }

  lemma {:induction false} ReduceIsReduceRows(m: Matrix, c: nat)
    requires Square(m) && c <= |m|
    ensures Reduce(m, c) == ReduceRows(m, c, m, |m|)
  {
    hide OpRows;
    if c > 0 { ReduceIsReduceRows(m, c - 1); }
  }

  lemma {:induction false} ReduceOnColumns(m: Matrix, c: nat, rows: Matrix, w: nat, j: nat)
    requires Square(m) && c <= |m| == |rows| && Wide(rows, w) && j < w
    ensures Column(ReduceRows(m, c, rows, w), j) == ReduceColumn(m, c, Column(rows, j))
  {
    hide OpRows, OpColumn;
    if c > 0 {
      ReduceOnColumns(m, c - 1, rows, w, j);
      OpRowsOnColumns(Reduce(m, c - 1), c - 1, ReduceRows(m, c - 1, rows, w), w, j);
    }
  }

  lemma {:induction false} ReduceOnProducts(m: Matrix, c: nat, rows: Matrix, w: nat, x: Vec)
    requires Square(m) && c <= |m| == |rows| && Wide(rows, w) && w <= |x|
    ensures Times(ReduceRows(m, c, rows, w), w, x) == ReduceColumn(m, c, Times(rows, w, x))
  {
    hide OpRows, OpColumn;
    if c > 0 {
      ReduceOnProducts(m, c - 1, rows, w, x);
      OpRowsOnProducts(Reduce(m, c - 1), c - 1, ReduceRows(m, c - 1, rows, w), w, x);
    }
  }

  lemma {:induction false} ReduceColumnInjective(m: Matrix, c: nat, u: Vec, v: Vec)
    requires Square(m) && c <= |m| == |u| == |v|
    requires ReduceColumn(m, c, u) == ReduceColumn(m, c, v)
    ensures u == v
  {
    hide OpRows, OpColumn;
    if c > 0 {
      OpColumnInjective(Reduce(m, c - 1), c - 1, ReduceColumn(m, c - 1, u), ReduceColumn(m, c - 1, v));
      ReduceColumnInjective(m, c - 1, u, v);
    }
  }

  lemma {:induction false} ReduceColumnZero(m: Matrix, c: nat)
    requires Square(m) && c <= |m|
    ensures ReduceColumn(m, c, Zeros(|m|)) == Zeros(|m|)
  {
    hide OpColumn;
    if c > 0 {
      ReduceColumnZero(m, c - 1);
      OpColumnZero(Reduce(m, c - 1), c - 1);
    }
  }

  // ---------- pivots and the kernel ----------

  // No column before `c` was skipped.
  ghost predicate PivotsBefore(m: Matrix, c: nat)
    requires Square(m) && c <= |m|
  {
    forall i :: 0 <= i < c ==> Pivot(Reduce(m, i), i, i) < |m|
  }

  lemma ClearedEntry(a: Byte, f: Byte, t: Byte)
    ensures t == 0 ==> Add(a, Mul(f, t)) == a
    ensures t == 1 && a == f ==> Add(a, Mul(f, t)) == 0
  {
    hide Mul, Add;
    MulZero(f);
    MulOne(f);
    AddLaws(a, 0, 0);
  }

  lemma OpRowsMakesUnitColumn(m: Matrix, i: nat)
    requires Square(m) && i < |m| && UnitColumns(m, i) && Pivot(m, i, i) < |m|
    ensures UnitColumns(OpRows(m, i, m, |m|), i + 1)
  {
    hide Mul, Add, Inverse;
    var p := Pivot(m, i, i);
    var m1 := Swap(m, i, p);
    var d := Inverse(m1[i][i]);
    var top := ScaleRow(m1[i], d, |m|);
    MulZero(d);
    assert forall k, j :: 0 <= k < |m| && 0 <= j < i ==> m1[k][j] == Delta(k, j);
    assert forall j :: 0 <= j <= i ==> top[j] == Delta(i, j);
    forall k, j | 0 <= k < |m| && 0 <= j < i + 1
      ensures OpRows(m, i, m, |m|)[k][j] == Delta(k, j)
    {
      if k != i { ClearedEntry(m1[k][j], m1[k][i], top[j]); }
    }
  }

  lemma {:induction false} PivotsMakeUnitColumns(m: Matrix, c: nat)
    requires Square(m) && c <= |m| && PivotsBefore(m, c)
    ensures UnitColumns(Reduce(m, c), c)
  {
    hide OpRows;
    if c > 0 {
      PivotsMakeUnitColumns(m, c - 1);
      OpRowsMakesUnitColumn(Reduce(m, c - 1), c - 1);
    }
  }

  // What a skipped column says about the columns before it: minus the column, a one, zeros.
  function KernelVector(r: Matrix, i: nat): (x: Vec)
    requires Square(r) && i < |r|
    ensures |x| == |r| && x != Zeros(|r|)
  {
    var x := seq(|r|, j requires 0 <= j < |r| => if j < i then r[j][i] else Delta(i, j));
    assert x[i] == 1;
    x
  }

  lemma KernelVectorIsKilled(r: Matrix, i: nat)
    requires Square(r) && i < |r| && UnitColumns(r, i) && Pivot(r, i, i) == |r|
    ensures Times(r, |r|, KernelVector(r, i)) == Zeros(|r|)
  {
    hide Mul, Add;
    var x := KernelVector(r, i);
    forall k | 0 <= k < |r| ensures Dot(r[k], x, |r|) == 0 {
      DotZeroTail(r[k], x, i + 1, |r|);
      DotUnit(r[k], k, x, i);
      MulOne(r[k][i]);
      AddLaws(r[k][i], 0, 0);
    }
  }

  // At the first column without a pivot, a nonzero kernel vector of the matrix that was given.
  lemma SkippedColumnGivesKernelVector(m: Matrix, i: nat)
    requires Square(m) && i < |m| && PivotsBefore(m, i) && Pivot(Reduce(m, i), i, i) == |m|
    ensures KernelVector(Reduce(m, i), i) != Zeros(|m|)
    ensures Times(m, |m|, KernelVector(Reduce(m, i), i)) == Zeros(|m|)
  {
    hide OpRows, OpColumn;
    var x := KernelVector(Reduce(m, i), i);
    PivotsMakeUnitColumns(m, i);
    KernelVectorIsKilled(Reduce(m, i), i);
    ReduceIsReduceRows(m, i);
    ReduceOnProducts(m, i, m, |m|, x);
    ReduceColumnZero(m, i);
    ReduceColumnInjective(m, i, Times(m, |m|, x), Zeros(|m|));
  }

  lemma {:induction false} FirstSkipped(m: Matrix, c: nat) returns (i: nat)
    requires Square(m) && c <= |m| && !PivotsBefore(m, c)
    ensures i < c && PivotsBefore(m, i) && Pivot(Reduce(m, i), i, i) == |m|
  {
    hide OpRows, Pivot, Reduce;
    if PivotsBefore(m, c - 1) { i := c - 1; } else { i := FirstSkipped(m, c - 1); }
  }

  lemma UnitColumnsTrivialKernel(m: Matrix, c: nat)
    requires Square(m) && c <= |m| && UnitColumns(Reduce(m, c), |m|)
    ensures TrivialKernel(m)
  {
    forall x: Vec | |x| == |m| && Times(m, |m|, x) == Zeros(|m|) ensures x == Zeros(|m|) {
      ReduceIsReduceRows(m, c);
      ReduceOnProducts(m, c, m, |m|, x);
      ReduceColumnZero(m, c);
      TimesIdentity(Reduce(m, c), x);
    }
  }

  // The elimination ends at the identity exactly when no column is skipped, and exactly when the
  // matrix it was given sends only the zero vector to zero.
  lemma IdentityIffTrivialKernel(m: Matrix)
    requires Square(m)
    ensures UnitColumns(Reduce(m, |m|), |m|) <==> TrivialKernel(m)
    ensures PivotsBefore(m, |m|) <==> TrivialKernel(m)
  {
    if PivotsBefore(m, |m|) {
      PivotsMakeUnitColumns(m, |m|);
    } else {
      var i := FirstSkipped(m, |m|);
      SkippedColumnGivesKernelVector(m, i);
    }
    if UnitColumns(Reduce(m, |m|), |m|) { UnitColumnsTrivialKernel(m, |m|); }
  }

  // ---------- the transformation ----------

  // What the elimination of `m` makes of the identity: the matrix it multiplies everything by.
  function Transformation(m: Matrix): (t: Matrix)
    requires Square(m)
    ensures |t| == |m| && Square(t)
  {
    ReduceRows(m, |m|, Identity(|m|), |m|)
  }

  lemma TransformationIsReduction(m: Matrix, v: Vec)
    requires Square(m) && |v| == |m|
    ensures Times(Transformation(m), |m|, v) == ReduceColumn(m, |m|, v)
  {
    ReduceOnProducts(m, |m|, Identity(|m|), |m|, v);
    TimesIdentity(Identity(|m|), v);
  }

  lemma TransformationTrivialKernel(m: Matrix)
    requires Square(m)
    ensures TrivialKernel(Transformation(m))
  {
    var t := Transformation(m);
    forall x: Vec | |x| == |t| && Times(t, |t|, x) == Zeros(|t|) ensures x == Zeros(|t|) {
      TransformationIsReduction(m, x);
      ReduceColumnZero(m, |m|);
      ReduceColumnInjective(m, |m|, x, Zeros(|m|));
    }
  }

  ghost predicate Inverses(s: Matrix, t: Matrix) {
    && |s| == |t| && Square(s) && Square(t)
    && (forall v: Vec :: |v| == |t| ==> Times(s, |t|, Times(t, |t|, v)) == v)
    && (forall v: Vec :: |v| == |t| ==> Times(t, |t|, Times(s, |t|, v)) == v)
  }

  // A matrix with a trivial kernel is inverted, on both sides, by its own elimination.
  lemma TrivialKernelInvertible(t: Matrix)
    requires Square(t) && TrivialKernel(t)
    ensures Inverses(Transformation(t), t)
  {
    var s := Transformation(t);
    forall v: Vec | |v| == |t| ensures Times(s, |t|, Times(t, |t|, v)) == v {
      LeftInverse(t, v);
    }
    forall v: Vec | |v| == |t| ensures Times(t, |t|, Times(s, |t|, v)) == v {
      var u := Times(s, |t|, v);
      LeftInverse(t, u);
      TransformationIsReduction(t, Times(t, |t|, u));
      TransformationIsReduction(t, v);
      ReduceColumnInjective(t, |t|, Times(t, |t|, u), v);
    }
  }

  lemma LeftInverse(t: Matrix, v: Vec)
    requires Square(t) && TrivialKernel(t) && |v| == |t|
    ensures Times(Transformation(t), |t|, Times(t, |t|, v)) == v
  {
    TransformationIsReduction(t, Times(t, |t|, v));
    ReduceIsReduceRows(t, |t|);
    ReduceOnProducts(t, |t|, t, |t|, v);
    IdentityIffTrivialKernel(t);
    TimesIdentity(Reduce(t, |t|), v);
  }

  // Singular or not, one invertible matrix maps every column of the leading block and of the data to
  // its result, so the solutions of the system are the ones it had.
  lemma EliminationIsOneInvertibleMap(m: Matrix, data: Matrix, w: nat)
    requires Square(m) && |data| == |m| && Wide(data, w)
    ensures var t := Transformation(m);
      && Inverses(Transformation(t), t)
      && (forall j :: 0 <= j < |m| ==> Column(Reduce(m, |m|), j) == Times(t, |m|, Column(m, j)))
      && (forall j :: 0 <= j < w ==>
            Column(ReduceRows(m, |m|, data, w), j) == Times(t, |m|, Column(data, j)))
    ensures forall x: Vec, j :: |x| == |m| && 0 <= j < w ==>
      (Times(Reduce(m, |m|), |m|, x) == Column(ReduceRows(m, |m|, data, w), j)
       <==> Times(m, |m|, x) == Column(data, j))
  {
    var n, t := |m|, Transformation(m);
    TransformationTrivialKernel(m);
    TrivialKernelInvertible(t);
    ReduceIsReduceRows(m, n);
    forall j | 0 <= j < n ensures Column(Reduce(m, n), j) == Times(t, n, Column(m, j)) {
      ReduceOnColumns(m, n, m, n, j);
      TransformationIsReduction(m, Column(m, j));
    }
    forall j | 0 <= j < w
      ensures Column(ReduceRows(m, n, data, w), j) == Times(t, n, Column(data, j))
    {
      ReduceOnColumns(m, n, data, w, j);
      TransformationIsReduction(m, Column(data, j));
    }
    forall x: Vec, j | |x| == n && 0 <= j < w
      ensures Times(Reduce(m, n), n, x) == Column(ReduceRows(m, n, data, w), j)
         <==> Times(m, n, x) == Column(data, j)
    {
      SolutionKept(m, data, w, x, j);
    }
  }

  lemma SolutionKept(m: Matrix, data: Matrix, w: nat, x: Vec, j: nat)
    requires Square(m) && |data| == |m| == |x| && Wide(data, w) && j < w
    ensures Times(Reduce(m, |m|), |m|, x) == Column(ReduceRows(m, |m|, data, w), j)
       <==> Times(m, |m|, x) == Column(data, j)
  {
    ReduceIsReduceRows(m, |m|);
    ReduceOnProducts(m, |m|, m, |m|, x);
    ReduceOnColumns(m, |m|, data, w, j);
    if Times(Reduce(m, |m|), |m|, x) == Column(ReduceRows(m, |m|, data, w), j) {
      ReduceColumnInjective(m, |m|, Times(m, |m|, x), Column(data, j));
    }
  }
}
