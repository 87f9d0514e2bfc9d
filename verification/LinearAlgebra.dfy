/**
 Linear algebra over GF(256): dot products, matrix-by-vector products and kernels, for matrices
 whose rows may be wider than the part that takes part in the product.
 */
module LinearAlgebra {
  import opened GF256

  type Vec = seq<Byte>
  type Matrix = seq<Vec>

  // The product of the first `w` entries.
  function Dot(a: Vec, b: Vec, w: nat): Byte
    requires w <= |a| && w <= |b|
  {
    if w == 0 then 0 else Add(Dot(a, b, w - 1), Mul(a[w - 1], b[w - 1]))
  }

  ghost predicate Wide(rows: Matrix, w: nat) {
    forall k :: 0 <= k < |rows| ==> w <= |rows[k]|
  }

  ghost predicate Uniform(rows: Matrix, w: nat) {
    forall k :: 0 <= k < |rows| ==> |rows[k]| == w
  }

  function Zeros(n: nat): Vec { seq(n, _ => 0 as Byte) }

  // The leading `w` columns of `rows`, applied to `x`.
  function Times(rows: Matrix, w: nat, x: Vec): (v: Vec)
    requires Wide(rows, w) && w <= |x|
    ensures |v| == |rows|
  {
    seq(|rows|, k requires 0 <= k < |rows| => Dot(rows[k], x, w))
  }

  function Column(rows: Matrix, j: nat): (v: Vec)
    requires Wide(rows, j + 1)
    ensures |v| == |rows|
  {
    seq(|rows|, k requires 0 <= k < |rows| => rows[k][j])
  }

  function Delta(k: int, j: int): Byte { if k == j then 1 else 0 }

  function Identity(n: nat): (rows: Matrix)
    ensures |rows| == n && forall k :: 0 <= k < n ==> |rows[k]| == n
  {
    seq(n, k => seq(n, j => Delta(k, j)))
  }

  // The leading `c` columns are those of the identity.
  ghost predicate UnitColumns(rows: Matrix, c: nat) {
    Wide(rows, c) && forall k, j :: 0 <= k < |rows| && 0 <= j < c ==> rows[k][j] == Delta(k, j)
  }

  // Only the zero vector is sent to zero by the leading square block.
  ghost predicate TrivialKernel(rows: Matrix)
    requires Wide(rows, |rows|)
  {
    forall x: Vec :: |x| == |rows| && Times(rows, |rows|, x) == Zeros(|rows|) ==> x == Zeros(|rows|)
  }

  lemma ColumnsDetermine(a: Matrix, b: Matrix, w: nat)
    requires |a| == |b| && Uniform(a, w) && Uniform(b, w)
    requires forall j :: 0 <= j < w ==> Column(a, j) == Column(b, j)
    ensures a == b
  {
    forall k | 0 <= k < |a| ensures a[k] == b[k] {
      forall j | 0 <= j < w ensures a[k][j] == b[k][j] {
        assert Column(a, j)[k] == Column(b, j)[k];
      }
    }
  }

  // ---------- dot products ----------

  lemma {:induction false} DotScale(c: Byte, a: Vec, a': Vec, b: Vec, w: nat)
    requires w <= |a| && w <= |a'| && w <= |b|
    requires forall j :: 0 <= j < w ==> a'[j] == Mul(a[j], c)
    ensures Dot(a', b, w) == Mul(Dot(a, b, w), c)
  {
    hide Mul, Add;
    if w == 0 {
      MulZero(c);
    } else {
      DotScale(c, a, a', b, w - 1);
      MulAddLeft(Dot(a, b, w - 1), Mul(a[w - 1], b[w - 1]), c);
      MulSwapFactors(a[w - 1], c, b[w - 1]);
    }
  }

  lemma {:induction false} DotAddScaled(f: Byte, a: Vec, p: Vec, a': Vec, b: Vec, w: nat)
    requires w <= |a| && w <= |p| && w <= |a'| && w <= |b|
    requires forall j :: 0 <= j < w ==> a'[j] == Add(a[j], Mul(f, p[j]))
    ensures Dot(a', b, w) == Add(Dot(a, b, w), Mul(f, Dot(p, b, w)))
  {
    hide Mul, Add;
    if w == 0 {
      MulZero(f);
      AddLaws(0, 0, 0);
    } else {
      var j := w - 1;
      DotAddScaled(f, a, p, a', b, j);
      MulAddLeft(a[j], Mul(f, p[j]), b[j]);
      MulAssoc(f, p[j], b[j]);
      MulAddRight(f, Dot(p, b, j), Mul(p[j], b[j]));
      AddSwap(Dot(a, b, j), Mul(f, Dot(p, b, j)), Mul(a[j], b[j]), Mul(f, Mul(p[j], b[j])));
    }
  }

  lemma {:induction false} DotUnit(a: Vec, k: int, b: Vec, w: nat)
    requires w <= |a| && w <= |b|
    requires forall j :: 0 <= j < w ==> a[j] == Delta(k, j)
    ensures Dot(a, b, w) == if 0 <= k < w then b[k] else 0
  {
    hide Mul, Add;
    if w > 0 {
      DotUnit(a, k, b, w - 1);
      MulOne(b[w - 1]);
      MulZero(b[w - 1]);
      AddLaws(b[w - 1], 0, 0);
      AddLaws(Dot(a, b, w - 1), 0, 0);
    } 
  }

  lemma {:induction false} DotZeroTail(a: Vec, b: Vec, m: nat, w: nat)
    requires m <= w <= |a| && w <= |b|
    requires forall j :: m <= j < w ==> b[j] == 0
    ensures Dot(a, b, w) == Dot(a, b, m)
  {
    hide Mul, Add;
    if m < w {
      DotZeroTail(a, b, m, w - 1);
      MulZero(a[w - 1]);
      AddLaws(Dot(a, b, w - 1), 0, 0);
    }
  }

  lemma TimesIdentity(rows: Matrix, x: Vec)
    requires UnitColumns(rows, |rows|) && |x| == |rows|
    ensures Times(rows, |rows|, x) == x
  {
    forall k | 0 <= k < |rows| ensures Times(rows, |rows|, x)[k] == x[k] {
      DotUnit(rows[k], k, x, |rows|);
    }
  }

  lemma TimesZero(rows: Matrix, w: nat)
    requires Wide(rows, w)
    ensures Times(rows, w, Zeros(w)) == Zeros(|rows|)
  {
    forall k | 0 <= k < |rows| ensures Times(rows, w, Zeros(w))[k] == 0 {
      DotZeroTail(rows[k], Zeros(w), 0, w);
    }
  }
}
