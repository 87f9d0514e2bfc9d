/**
 The random linear network coder: split a payload into zero-padded packets, mix them into linear
 combinations, and recover the packets by elimination. The drawn coefficients are parameters.
 */
module RlncCoder {
  import Bytes
  import opened Elimination
  import opened GF256
  import opened LinearAlgebra
  import opened PartialElimination
  import opened Wrappers

  const DEFAULT_CHUNK_SIZE: nat := 5

  datatype EncodedPayload = EncodedPayload(coeffs: Vec, payload: Vec, id: string)

  // ---------- splitting and joining ----------

  function Pad(chunk: Vec, size: nat): (p: Vec)
    requires |chunk| <= size
    ensures |p| == size
  {
    chunk + Zeros(size - |chunk|)
  }

  function Packets(payload: Vec, size: nat): (packets: Matrix)
    requires size > 0
    ensures forall k :: 0 <= k < |packets| ==> |packets[k]| == size
    ensures payload != [] ==> |packets| > 0
  {
    if |payload| == 0 then []
    else if |payload| <= size then [Pad(payload, size)]
    else [payload[..size]] + Packets(payload[size..], size)
  }

  function Concat(rows: Matrix): Vec {
    if rows == [] then [] else rows[0] + Concat(rows[1..])
  }

  lemma {:induction false} PacketsCount(payload: Vec, size: nat)
    requires size > 0
    ensures |payload| <= |Packets(payload, size)| * size < |payload| + size
  {
    if |payload| > size {
      PacketsCount(payload[size..], size);
      var rest := |Packets(payload[size..], size)|;
      assert (1 + rest) * size == size + rest * size;
    }
  }

  // The zeros that fill the last packet.
  function Padding(length: nat, size: nat): (pad: nat)
    requires size > 0
    ensures pad < size && (pad == 0 <==> length % size == 0)
  {
    if length % size == 0 then 0 else size - length % size
  }

  lemma PaddingOfOne(length: nat, size: nat)
    requires 0 < length <= size
    ensures Padding(length, size) == size - length
  {
    if length < size { Bytes.RemainderUnique(length, size, 0, length); }
  }

  lemma PaddingRepeats(length: nat, size: nat)
    requires 0 < size <= length
    ensures Padding(length, size) == Padding(length - size, size)
  {
    var rest := length - size;
    Bytes.RemainderUnique(length, size, rest / size + 1, rest % size);
  }

  // Joining the packets of a payload gives the payload and the padding.
  lemma {:induction false} ConcatPackets(payload: Vec, size: nat)
    requires size > 0
    ensures Concat(Packets(payload, size)) == payload + Zeros(Padding(|payload|, size))
  {
    hide Padding;
    var packets := Packets(payload, size);
    if |payload| > size {
      ConcatPackets(payload[size..], size);
      PaddingRepeats(|payload|, size);
      assert packets[1..] == Packets(payload[size..], size);
      assert payload == payload[..size] + payload[size..];
    } else if |payload| > 0 {
      PaddingOfOne(|payload|, size);
      assert packets[1..] == [];
      assert Concat(packets) == packets[0] + [] == packets[0];
    } else {
      assert Padding(0, size) == 0;
    }
  }

  // So the payload itself comes back exactly when its length is a multiple of the packet size.
  lemma JoinedIsPayloadIff(payload: Vec, size: nat)
    requires size > 0
    ensures Concat(Packets(payload, size)) == payload <==> |payload| % size == 0
  {
    ConcatPackets(payload, size);
    assert |payload + Zeros(Padding(|payload|, size))| == |payload| + Padding(|payload|, size);
  }

  // Three bytes in packets of two come back as four.
  lemma PaddingStays()
    ensures Concat(Packets([1, 2, 3], 2)) == [1, 2, 3, 0]
  {
    ConcatPackets([1, 2, 3], 2);
    assert Zeros(1) == [0];
  }

  lemma {:induction false} PacketsStep(payload: Vec, size: nat, pos: nat)
    requires size > 0 && pos < |payload|
    ensures var end := if pos + size < |payload| then pos + size else |payload|;
      Packets(payload[pos..], size) == [Pad(payload[pos..end], size)] + Packets(payload[end..], size)
  {
    var rest := payload[pos..];
    if |rest| <= size {
      assert rest == payload[pos..|payload|];
    } else {
      assert rest[..size] == payload[pos..pos + size];
      assert rest[size..] == payload[pos + size..];
      assert Pad(rest[..size], size) == rest[..size];
    }
  }

  method Split(payload: Vec, size: nat) returns (packets: Matrix)
    requires size > 0
    ensures packets == Packets(payload, size)
  {
    packets := [];
    var pos := 0;
    while pos < |payload|
      invariant 0 <= pos <= |payload|
      invariant Packets(payload, size) == packets + Packets(payload[pos..], size)
    {
      PacketsStep(payload, size, pos);
      var end := if pos + size < |payload| then pos + size else |payload|;
      var p := payload[pos..end];
      while |p| < size
        invariant end - pos <= |p| <= size
        invariant p == payload[pos..end] + Zeros(|p| - (end - pos))
      {
        p := p + [0];
      }
      packets := packets + [p];
      pos := end;
    }
  }

  method Reconstruct(data: Matrix) returns (result: Vec)
    ensures result == Concat(data)
  {
    result := [];
    for k := 0 to |data|
      invariant Concat(data) == result + Concat(data[k..])
    {
      assert data[k..][1..] == data[k + 1..];
      result := result + data[k];
    }
  }

  // ---------- encoding ----------

  // One linear combination of the packets: at each byte, the coefficients times that column.
  function Combination(packets: Matrix, coeffs: Vec, size: nat): (payload: Vec)
    requires Wide(packets, size) && |coeffs| == |packets|
    ensures |payload| == size
  {
    seq(size, j requires 0 <= j < size => Dot(coeffs, Column(packets, j), |packets|))
  }

  method MixIn(payload: array<Byte>, coeff: Byte, packet: Vec)
    requires payload.Length <= |packet|
    modifies payload
    ensures forall j :: 0 <= j < payload.Length ==> payload[j] == Add(old(payload[j]), Mul(coeff, packet[j]))
  {
    hide Mul, Add;
    for j := 0 to payload.Length
      invariant forall l :: 0 <= l < j ==> payload[l] == Add(old(payload[l]), Mul(coeff, packet[l]))
      invariant forall l :: j <= l < payload.Length ==> payload[l] == old(payload[l])
    {
      var val := GfMul(coeff, packet[j]);
      var sum := GfAdd(payload[j], val);
      payload[j] := sum;
    }
  }

  method Encode(packets: Matrix, draws: Vec, id: string) returns (encoded: EncodedPayload)
    requires |packets| > 0 && |draws| == |packets| && Wide(packets, |packets[0]|)
    ensures encoded == EncodedPayload(draws, Combination(packets, draws, |packets[0]|), id)
  {
    hide Mul, Add;
    var n, size := |packets|, |packets[0]|;
    var coeffs := new Byte[n](_ => 0);
    var payload := new Byte[size](_ => 0);
    for i := 0 to n
      invariant coeffs[..i] == draws[..i]
      invariant forall j :: 0 <= j < size ==> payload[j] == Dot(draws, Column(packets, j), i)
    {
      var coeff := draws[i];
      coeffs[i] := coeff;
      MixIn(payload, coeff, packets[i]);
    }
    assert coeffs[..] == draws;
    assert payload[..] == Combination(packets, draws, size);
    encoded := EncodedPayload(coeffs[..], payload[..], id);
  }

  method BuildLinearSystem(encoded: seq<EncodedPayload>) returns (matrix: array<Vec>, data: array<Vec>)
    ensures fresh(matrix) && fresh(data) && matrix != data
    ensures matrix[..] == CoeffRows(encoded) && data[..] == PayloadRows(encoded)
  {
    matrix := new Vec[|encoded|](_ => []);
    data := new Vec[|encoded|](_ => []);
    for k := 0 to |encoded|
      invariant matrix[..k] == CoeffRows(encoded)[..k]
      invariant data[..k] == PayloadRows(encoded)[..k]
    {
      matrix[k] := encoded[k].coeffs;
      data[k] := encoded[k].payload;
    }
  }

  function CoeffRows(encoded: seq<EncodedPayload>): Matrix {
    seq(|encoded|, k requires 0 <= k < |encoded| => encoded[k].coeffs)
  }

  function PayloadRows(encoded: seq<EncodedPayload>): Matrix {
    seq(|encoded|, k requires 0 <= k < |encoded| => encoded[k].payload)
  }

  // ---------- elimination in place ----------

  method ScaleInPlace(rows: array<Vec>, i: nat, c: Byte, w: nat)
    requires i < rows.Length && w <= |rows[i]|
    modifies rows
    ensures rows[..] == old(rows[..])[i := ScaleRow(old(rows[i]), c, w)]
  {
    hide Mul;
    ghost var row := rows[i];
    for j := 0 to w
      invariant |rows[i]| == |row|
      invariant forall l :: 0 <= l < |row| ==> rows[i][l] == if l < j then Mul(row[l], c) else row[l]
      invariant forall k :: 0 <= k < rows.Length && k != i ==> rows[k] == old(rows[k])
    {
      var val := GfMul(rows[i][j], c);
      rows[i] := rows[i][j := val];
    }
    assert rows[i] == ScaleRow(row, c, w);
  }

  method AddInPlace(rows: array<Vec>, k: nat, f: Byte, top: Vec, w: nat)
    requires k < rows.Length && w <= |rows[k]| && w <= |top|
    modifies rows
    ensures rows[..] == old(rows[..])[k := AddRow(old(rows[k]), f, top, w)]
  {
    hide Mul, Add;
    ghost var row := rows[k];
    for j := 0 to w
      invariant |rows[k]| == |row|
      invariant forall l :: 0 <= l < |row| ==>
        rows[k][l] == if l < j then Add(row[l], Mul(f, top[l])) else row[l]
      invariant forall l :: 0 <= l < rows.Length && l != k ==> rows[l] == old(rows[l])
    {
      var val := GfMul(f, top[j]);
      var sum := GfAdd(rows[k][j], val);
      rows[k] := rows[k][j := sum];
    }
    assert rows[k] == AddRow(row, f, top, w);
  }

  method SwapInPlace(rows: array<Vec>, i: nat, p: nat)
    requires i < rows.Length && p < rows.Length
    modifies rows
    ensures rows[..] == Swap(old(rows[..]), i, p)
  {
    rows[i], rows[p] := rows[p], rows[i];
  }

  // Clears column `i` in every row but row `i`; false where the source panics.
  method ClearColumn(matrix: array<Vec>, data: array<Vec>, i: nat) returns (ok: bool)
    requires matrix != data && i < matrix.Length == data.Length
    modifies matrix, data
    ensures ok <==> InRange(old(matrix[..]), old(data[..]), i)
    ensures ok ==> matrix[i] == old(matrix[i]) && data[i] == old(data[i])
    ensures ok ==> forall k :: 0 <= k < matrix.Length && k != i ==>
      var row, top := old(matrix[k]), old(matrix[i]);
      matrix[k] == AddRow(row, row[i], top, Min(matrix.Length, Min(|row|, |top|)))
    ensures ok ==> forall k :: 0 <= k < matrix.Length && k != i ==>
      data[k] == AddRow(old(data[k]), old(matrix[k])[i], old(data[i]), |old(data[k])|)
  {
    hide Mul, Add;
    var n := matrix.Length;
    var pivotRow := matrix[i];
    for k := 0 to n
      invariant matrix[i] == pivotRow && data[i] == old(data[i])
      invariant forall l :: 0 <= l < k && l != i ==> i < |old(matrix[l])| && |old(data[l])| <= |old(data[i])|
      invariant forall l :: 0 <= l < k && l != i ==>
        matrix[l] == AddRow(old(matrix[l]), old(matrix[l])[i], pivotRow, Min(n, Min(|old(matrix[l])|, |pivotRow|)))
      invariant forall l :: 0 <= l < k && l != i ==>
        data[l] == AddRow(old(data[l]), old(matrix[l])[i], old(data[i]), |old(data[l])|)
      invariant forall l :: k <= l < n ==> matrix[l] == old(matrix[l]) && data[l] == old(data[l])
    {
      if k != i {
        if |matrix[k]| <= i || |data[k]| > |data[i]| {
          return false;
        }
        var factor := matrix[k][i];
        AddInPlace(matrix, k, factor, pivotRow, Min(n, Min(|matrix[k]|, |pivotRow|)));
        AddInPlace(data, k, factor, data[i], |data[k]|);
      }
    }
    return true;
  }

  method EliminateColumn(matrix: array<Vec>, data: array<Vec>, i: nat) returns (ok: bool)
    requires matrix != data && i < matrix.Length == data.Length
    modifies matrix, data
    ensures Step(old(matrix[..]), old(data[..]), i) == if ok then Some((matrix[..], data[..])) else None
  {
    hide Mul, Add, Inverse;
    var n := matrix.Length;
    ghost var m, d := matrix[..], data[..];
    var pivot := i;
    while pivot < n && |matrix[pivot]| > i && matrix[pivot][i] == 0
      invariant i <= pivot <= n
      invariant Search(m, i, i) == Search(m, i, pivot)
    {
      pivot := pivot + 1;
    }
    if pivot == n { return true; }
    if |matrix[pivot]| <= i { return false; }
    SwapInPlace(matrix, i, pivot);
    SwapInPlace(data, i, pivot);
    ghost var m1, d1 := matrix[..], data[..];
    var inv := GfInv(matrix[i][i]);
    ScaleInPlace(matrix, i, inv.value, Min(n, |matrix[i]|));
    ScaleInPlace(data, i, inv.value, |data[i]|);
    ghost var m2, d2 := matrix[..], data[..];
    assert |d2[i]| == |d1[i]|;
    assert forall k :: 0 <= k < n && k != i ==> m2[k] == m1[k] && d2[k] == d1[k];
    ok := ClearColumn(matrix, data, i);
    assert ok <==> InRange(m1, d1, i);
    if ok {
      assert matrix[..] == Cleared(m1, d1, i).0;
      assert data[..] == Cleared(m1, d1, i).1;
    }
  }

  method GaussianElimination(matrix: array<Vec>, data: array<Vec>) returns (ok: bool)
    requires matrix != data && matrix.Length == data.Length
    modifies matrix, data
    ensures var m, d := old(matrix[..]), old(data[..]);
      && Eliminate(m, d, |m|) == (if ok then Some((matrix[..], data[..])) else None)
      && (ok && Square(m) ==> (UnitColumns(matrix[..], |m|) <==> TrivialKernel(m)))
  {
    hide Step, UnitColumns, TrivialKernel, Square;
    ghost var m, d := matrix[..], data[..];
    for i := 0 to matrix.Length
      invariant Eliminate(m, d, i) == Some((matrix[..], data[..]))
    {
      ok := EliminateColumn(matrix, data, i);
      if !ok {
        StaysStuck(m, d, i + 1, |m|);
        return false;
      }
    }
    ok := true;
    if Square(m) {
      IdentityIffTrivialKernel(m);
      EliminateOnMatrix(m, d, |m|);
    }
  }

  lemma {:induction false} StaysStuck(m: Matrix, data: Matrix, c: nat, d: nat)
    requires c <= d <= |m| == |data| && Eliminate(m, data, c).None?
    ensures Eliminate(m, data, d).None?
  {
    hide Step;
    if c < d { StaysStuck(m, data, c, d - 1); }
  }

  // ---------- recovery ----------

  function Encodings(c: Matrix, packets: Matrix, size: nat): (data: Matrix)
    requires Wide(packets, size) && Uniform(c, |packets|)
    ensures |data| == |c| && Uniform(data, size)
  {
    seq(|c|, k requires 0 <= k < |c| => Combination(packets, c[k], size))
  }

  // The rows the receiver is left with after eliminating (c, data).
  function Decoded(c: Matrix, data: Matrix, size: nat): (rows: Matrix)
    requires Solvable(c, data, size)
    ensures |rows| == |c| && Uniform(rows, size)
  {
    ReduceRows(c, |c|, data, size)
  }

  lemma EncodingsColumn(c: Matrix, packets: Matrix, size: nat, j: nat)
    requires Uniform(packets, size) && Uniform(c, |packets|) && j < size
    ensures Column(Encodings(c, packets, size), j) == Times(c, |packets|, Column(packets, j))
  {
    hide Dot;
  }

  // Independent coefficient vectors: the matrix becomes the identity and the data the packets.
  lemma IndependentDrawsRecover(c: Matrix, packets: Matrix, size: nat)
    requires |c| == |packets| && Uniform(c, |c|) && Uniform(packets, size)
    requires TrivialKernel(c)
    ensures UnitColumns(Reduce(c, |c|), |c|)
    ensures Decoded(c, Encodings(c, packets, size), size) == packets
  {
    IdentityIffTrivialKernel(c);
    forall j | 0 <= j < size
      ensures Column(Decoded(c, Encodings(c, packets, size), size), j) == Column(packets, j)
    {
      ColumnRecovered(c, packets, size, j);
    }
    ColumnsDetermine(Decoded(c, Encodings(c, packets, size), size), packets, size);
  }

  lemma ColumnRecovered(c: Matrix, packets: Matrix, size: nat, j: nat)
    requires |c| == |packets| && Uniform(c, |c|) && Uniform(packets, size) && j < size
    requires UnitColumns(Reduce(c, |c|), |c|)
    ensures Column(Decoded(c, Encodings(c, packets, size), size), j) == Column(packets, j)
  {
    hide Dot, OpRows, OpColumn, Encodings;
    var n, x := |c|, Column(packets, j);
    EncodingsColumn(c, packets, size, j);
    ReduceIsReduceRows(c, n);
    ReduceOnColumns(c, n, Encodings(c, packets, size), size, j);
    ReduceOnProducts(c, n, c, n, x);
    TimesIdentity(Reduce(c, n), x);
  }

  // All packets are recovered exactly when the coefficient vectors are independent.
  lemma RecoveryIffIndependent(c: Matrix, size: nat)
    requires Uniform(c, |c|) && size > 0
    ensures TrivialKernel(c) <==>
      forall packets: Matrix :: |packets| == |c| && Uniform(packets, size) ==>
        Decoded(c, Encodings(c, packets, size), size) == packets
  {
    if TrivialKernel(c) {
      forall packets: Matrix | |packets| == |c| && Uniform(packets, size)
        ensures Decoded(c, Encodings(c, packets, size), size) == packets
      {
        IndependentDrawsRecover(c, packets, size);
      }
    } else {
      var x: Vec :| |x| == |c| && Times(c, |c|, x) == Zeros(|c|) && x != Zeros(|c|);
      DependentDrawsCollide(c, x, size);
    }
  }

  // Every column of the packets a multiple of a kernel vector: nothing of them is sent.
  lemma DependentDrawsCollide(c: Matrix, x: Vec, size: nat)
    requires Uniform(c, |c|) && size > 0 && |x| == |c|
    requires Times(c, |c|, x) == Zeros(|c|) && x != Zeros(|c|)
    ensures exists packets, packets' ::
      && |packets| == |packets'| == |c| && Uniform(packets, size) && Uniform(packets', size)
      && packets != packets'
      && Encodings(c, packets, size) == Encodings(c, packets', size)
  {
    hide Mul, Add;
    var n := |c|;
    var packets := seq(n, k requires 0 <= k < n => seq(size, j => x[k]));
    var packets' := seq(n, k => Zeros(size));
    assert packets != packets' by {
      var k :| 0 <= k < n && x[k] != 0;
      assert packets[k][0] != packets'[k][0];
    }
    forall j | 0 <= j < size
      ensures Column(Encodings(c, packets, size), j) == Column(Encodings(c, packets', size), j)
    {
      EncodingsColumn(c, packets, size, j);
      EncodingsColumn(c, packets', size, j);
      assert Column(packets, j) == x && Column(packets', j) == Zeros(n);
      TimesZero(c, n);
    }
    ColumnsDetermine(Encodings(c, packets, size), Encodings(c, packets', size), size);
  }

  // From payload to payload: split, encode once per draw, keep as many packets as there are chunks,
  // eliminate and join.
  method Transmit(payload: Vec, size: nat, draws: Matrix) returns (output: Vec)
    requires payload != [] && size > 0
    requires |draws| >= |Packets(payload, size)| && Uniform(draws, |Packets(payload, size)|)
    ensures var packets := Packets(payload, size);
      var c := draws[..|packets|];
      output == Concat(Decoded(c, Encodings(c, packets, size), size))
    ensures TrivialKernel(draws[..|Packets(payload, size)|]) ==>
      && output == payload + Zeros(Padding(|payload|, size))
      && (output == payload <==> |payload| % size == 0)
  {
    hide Mul, Add, Dot, OpRows;
    var packets := Split(payload, size);
    var n := |packets|;
    var encoded: seq<EncodedPayload> := [];
    for k := 0 to |draws|
      invariant |encoded| == k
      invariant forall l :: 0 <= l < k ==>
        encoded[l] == EncodedPayload(draws[l], Combination(packets, draws[l], size), "")
    {
      var e := Encode(packets, draws[k], "");
      encoded := encoded + [e];
    }
    var selected := encoded[..n];
    var matrix, data := BuildLinearSystem(selected);
    assert matrix[..] == draws[..n];
    assert data[..] == Encodings(draws[..n], packets, size);
    var ok := GaussianElimination(matrix, data);
    EliminateOnSolvable(draws[..n], Encodings(draws[..n], packets, size), n, size);
    output := Reconstruct(data[..]);
    if TrivialKernel(draws[..n]) {
      IndependentDrawsRecover(draws[..n], packets, size);
      ConcatPackets(payload, size);
      JoinedIsPayloadIff(payload, size);
    }
  }
}
