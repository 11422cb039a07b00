// The loops of ReedSolomon::InvertMatrix, working in place on two-dimensional arrays.
module MatrixInversion {
  import opened Bytes
  import F = FieldLaws
  import opened GaloisTables
  import opened LinearAlgebra
  import opened GaussJordan

  // The contents of a two-dimensional array, row by row.
  function Rows(m: array2<Byte>): (w: Matrix)
    reads m
    ensures IsMatrix(w, m.Length0, m.Length1)
    ensures forall i, j :: 0 <= i < m.Length0 && 0 <= j < m.Length1 ==> w[i][j] == m[i, j]
  {
    seq(m.Length0, i requires 0 <= i < m.Length0 reads m =>
      seq(m.Length1, j requires 0 <= j < m.Length1 reads m => m[i, j]))
  }

  lemma {:induction false} SameRows(v: Matrix, w: Matrix, rows: nat, cols: nat)
    requires IsMatrix(v, rows, cols) && IsMatrix(w, rows, cols)
    requires forall i, j :: 0 <= i < rows && 0 <= j < cols ==> v[i][j] == w[i][j]
    ensures v == w
  {
    forall i | 0 <= i < rows ensures v[i] == w[i] {
      assert forall j :: 0 <= j < cols ==> v[i][j] == w[i][j];
    }
  }

  method Swap(work: array2<Byte>, r: nat, s: nat)
    requires r < work.Length0 && s < work.Length0
    modifies work
    ensures Rows(work) == SwapRows(old(Rows(work)), r, s)
  {
    for j := 0 to work.Length1
      invariant forall i, l :: 0 <= i < work.Length0 && j <= l < work.Length1 ==> work[i, l] == old(work[i, l])
      invariant forall i, l :: 0 <= i < work.Length0 && 0 <= l < j ==>
        work[i, l] == old(work[if i == r then s else if i == s then r else i, l])
    {
      work[r, j], work[s, j] := work[s, j], work[r, j];
    }
    SameRows(Rows(work), SwapRows(old(Rows(work)), r, s), work.Length0, work.Length1);
  }

  method Scale(gf: GaloisField, work: array2<Byte>, r: nat, inv: Byte)
    requires gf.Valid() && r < work.Length0
    modifies work
    ensures Rows(work) == ScaleRow(old(Rows(work)), r, inv)
  {
    hide F.Mul;
    for j := 0 to work.Length1
      invariant forall i, l :: 0 <= i < work.Length0 && 0 <= l < work.Length1 ==>
        work[i, l] == if i == r && l < j then F.Mul(old(work[i, l]), inv) else old(work[i, l])
    {
      work[r, j] := gf.Mul(work[r, j], inv);
    }
    forall l | 0 <= l < work.Length1 ensures work[r, l] == F.Mul(inv, old(work[r, l])) {
      F.MulCommutes(inv, old(work[r, l]));
    }
    SameRows(Rows(work), ScaleRow(old(Rows(work)), r, inv), work.Length0, work.Length1);
  }

  method AddMultiple(gf: GaloisField, work: array2<Byte>, row: nat, factor: Byte, col: nat)
    requires gf.Valid() && row < work.Length0 && col < work.Length0 && row != col
    modifies work
    ensures Rows(work) == old(Rows(work))[row := VecAdd(old(Rows(work))[row], VecScale(factor, old(Rows(work))[col]))]
  {
    hide F.Mul, Add;
    for j := 0 to work.Length1
      invariant forall i, l :: 0 <= i < work.Length0 && 0 <= l < work.Length1 ==>
        work[i, l] ==
          if i == row && l < j then Add(old(work[i, l]), F.Mul(factor, old(work[col, l]))) else old(work[i, l])
    {
      work[row, j] := Add(work[row, j], gf.Mul(factor, work[col, j]));
    }
    SameRows(Rows(work), old(Rows(work))[row := VecAdd(old(Rows(work))[row], VecScale(factor, old(Rows(work))[col]))],
             work.Length0, work.Length1);
  }

  // Clears column col in every other row.
  method Clear(gf: GaloisField, work: array2<Byte>, col: nat)
    requires gf.Valid() && col < work.Length0 <= work.Length1
    modifies work
    ensures Rows(work) == ClearColumn(old(Rows(work)), col, work.Length1)
  {
    hide F.Mul, Add;
    ghost var w := Rows(work);
    for row := 0 to work.Length0
      invariant forall i :: 0 <= i < row ==> Rows(work)[i] == Cleared(w, col, i)
      invariant forall i :: row <= i < work.Length0 ==> Rows(work)[i] == w[i]
      invariant Rows(work)[col] == w[col]
    {
      if row == col { continue; }
      var factor := work[row, col];
      if factor == 0 {
        ZeroFactor(w[row], w[col]);
        continue;
      }
      AddMultiple(gf, work, row, factor, col);
    }
  }

  lemma {:induction false} ZeroFactor(x: Vector, y: Vector)
    requires |x| == |y|
    ensures VecAdd(x, VecScale(0, y)) == x
  {
    hide F.Mul, Add;
    forall j | 0 <= j < |x| ensures Add(x[j], F.Mul(0, y[j])) == x[j] {
      F.ZeroMul(y[j]);
      AddZero(x[j]);
    }
  }

  method AugmentWithIdentity(matrix: array2<Byte>) returns (work: array2<Byte>)
    requires matrix.Length0 == matrix.Length1
    ensures fresh(work) && work.Length0 == matrix.Length0 && work.Length1 == 2 * matrix.Length0
    ensures Rows(work) == Augment(Rows(matrix))
  {
    var size := matrix.Length0;
    work := new Byte[size, 2 * size]((_, _) => 0);
    for i := 0 to size
      invariant forall r, l :: 0 <= r < size && 0 <= l < 2 * size ==>
        work[r, l] == if r >= i then 0 else if l < size then matrix[r, l] else if l == size + r then 1 else 0
    {
      for j := 0 to size
        invariant forall r, l :: 0 <= r < size && 0 <= l < 2 * size ==>
          work[r, l] == if r > i || (r == i && (l >= j)) then 0
                        else if l < size then matrix[r, l] else if l == size + r then 1 else 0
      {
        work[i, j] := matrix[i, j];
      }
      work[i, size + i] := 1;
    }
    SameRows(Rows(work), Augment(Rows(matrix)), size, 2 * size);
  }

  // The first row at or below col with a nonzero entry in column col.
  method Pivot(work: array2<Byte>, col: nat) returns (p: nat)
    requires col < work.Length0 <= work.Length1
    ensures p == FindPivot(Rows(work), col, col)
  {
    if work[col, col] != 0 { return col; }
    for row := col + 1 to work.Length0
      invariant FindPivot(Rows(work), col, col) == FindPivot(Rows(work), col, row)
    {
      if work[row, col] != 0 { return row; }
    }
    return work.Length0;
  }

  // One round: bring a pivot into place, scale its row, clear its column; false when there is no pivot.
  method EliminateColumn(gf: GaloisField, work: array2<Byte>, col: nat) returns (ok: bool)
    requires gf.Valid() && col < work.Length0 <= work.Length1
    modifies work
    ensures ok == Step(old(Rows(work)), col, work.Length1).Some?
    ensures ok ==> Rows(work) == Step(old(Rows(work)), col, work.Length1).value
  {
    hide F.Inv, VecScale, ClearColumn, ScaleRow;
    ghost var w := Rows(work);
    var p := Pivot(work, col);
    if p == work.Length0 { return false; }
    if p != col { Swap(work, col, p); }
    assert Rows(work) == SwapRows(w, col, p);
    var inv := gf.Inv(work[col, col]);
    Scale(gf, work, col, inv);
    Clear(gf, work, col);
    return true;
  }

  // The elimination rounds, one per column.
  method Eliminate(gf: GaloisField, work: array2<Byte>) returns (ok: bool)
    requires gf.Valid() && work.Length0 <= work.Length1
    modifies work
    ensures ok == Reduce(old(Rows(work)), 0, work.Length1).Some?
    ensures ok ==> Rows(work) == Reduce(old(Rows(work)), 0, work.Length1).value
  {
    hide Rows, Step;
    for col := 0 to work.Length0
      invariant Reduce(Rows(work), col, work.Length1) == Reduce(old(Rows(work)), 0, work.Length1)
    {
      ok := EliminateColumn(gf, work, col);
      if !ok { return; }
    }
    return true;
  }

  method ExtractInverse(work: array2<Byte>, matrix: array2<Byte>)
    requires matrix.Length0 == matrix.Length1 == work.Length0 && work.Length1 == 2 * work.Length0
    requires work != matrix
    modifies matrix
    ensures Rows(matrix) == RightHalf(Rows(work), work.Length0)
  {
    var size := matrix.Length0;
    for i := 0 to size
      invariant forall r, l :: 0 <= r < i && 0 <= l < size ==> matrix[r, l] == work[r, size + l]
    {
      for j := 0 to size
        invariant forall r, l :: 0 <= r < i && 0 <= l < size ==> matrix[r, l] == work[r, size + l]
        invariant forall l :: 0 <= l < j ==> matrix[i, l] == work[i, size + l]
      {
        matrix[i, j] := work[i, size + j];
      }
    }
    SameRows(Rows(matrix), RightHalf(Rows(work), size), size, size);
  }

  // Inverts the matrix in place; a singular matrix is reported and left as it was.
  method InvertMatrix(gf: GaloisField, matrix: array2<Byte>) returns (ok: bool)
    requires gf.Valid() && matrix.Length0 == matrix.Length1
    modifies matrix
    ensures ok <==> Invertible(old(Rows(matrix)))
    ensures ok ==> TwoSidedInverse(old(Rows(matrix)), Rows(matrix))
    ensures ok == Inverse(old(Rows(matrix))).Some?
    ensures Rows(matrix) == if ok then Inverse(old(Rows(matrix))).value else old(Rows(matrix))
  {
    hide F.Inv, TwoSidedInverse, Invertible, Reduce, Rows;
    ghost var a := Rows(matrix);
    InverseExistsIff(a);
    var work := AugmentWithIdentity(matrix);
    ok := Eliminate(gf, work);
    if ok {
      InverseIsTwoSided(a);
      ExtractInverse(work, matrix);
    }
  }
}
