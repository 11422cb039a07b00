// Gauss-Jordan inversion over GF(2^8), as a function on matrix values and as the in-place loops.
module GaussJordan {
  import opened Wrappers
  import opened Bytes
  import opened FieldLaws
  import opened LinearAlgebra

  // ----- the elimination as a function on values

  // [A | I]
  function Augment(a: Matrix): (w: Matrix)
    requires IsMatrix(a, |a|, |a|)
    ensures IsMatrix(w, |a|, 2 * |a|)
  {
    seq(|a|, i requires 0 <= i < |a| => a[i] + Unit(|a|, i))
  }

  // The first row at or below `row` with a nonzero entry in column col, or |w| when there is none.
  function FindPivot(w: Matrix, col: nat, row: nat): (p: nat)
    requires row <= |w| && forall i :: 0 <= i < |w| ==> col < |w[i]|
    ensures row <= p <= |w|
    ensures forall i :: row <= i < p ==> w[i][col] == 0
    ensures p < |w| ==> w[p][col] != 0
    decreases |w| - row
  {
    if row == |w| || w[row][col] != 0 then row else FindPivot(w, col, row + 1)
  }

  function SwapRows(w: Matrix, i: nat, j: nat): Matrix
    requires i < |w| && j < |w|
  {
    w[i := w[j]][j := w[i]]
  }

  ghost function ScaleRow(w: Matrix, i: nat, c: Byte): Matrix
    requires i < |w|
  {
    w[i := VecScale(c, w[i])]
  }

  // Row i with the multiple of the pivot row that clears column col added.
  function Cleared(w: Matrix, col: nat, i: nat): Vector
    requires col < |w| && i < |w| && |w[i]| == |w[col]| && col < |w[i]|
  {
    if i == col then w[i] else VecAdd(w[i], VecScale(w[i][col], w[col]))
  }

  function ClearColumn(w: Matrix, col: nat, cols: nat): (v: Matrix)
    requires IsMatrix(w, |w|, cols) && col < |w| <= cols
    ensures IsMatrix(v, |w|, cols)
  {
    seq(|w|, i requires 0 <= i < |w| => Cleared(w, col, i))
  }

  // One round of the elimination; None when column col holds no pivot.
  ghost function Step(w: Matrix, col: nat, cols: nat): (r: Option<Matrix>)
    requires IsMatrix(w, |w|, cols) && col < |w| <= cols
    ensures r.Some? ==> IsMatrix(r.value, |w|, cols)
  {
    var p := FindPivot(w, col, col);
    if p == |w| then None
    else
      var s := SwapRows(w, col, p);
      var u := ScaleRow(s, col, Inv(s[col][col]));
      Some(ClearColumn(u, col, cols))
  }

  ghost function Reduce(w: Matrix, col: nat, cols: nat): (r: Option<Matrix>)
    requires IsMatrix(w, |w|, cols) && col <= |w| <= cols
    ensures r.Some? ==> IsMatrix(r.value, |w|, cols)
    decreases |w| - col
  {
    if col == |w| then Some(w)
    else
      match Step(w, col, cols)
      case None => None
      case Some(v) => Reduce(v, col + 1, cols)
  }

  function RightHalf(w: Matrix, n: nat): (b: Matrix)
    requires IsMatrix(w, n, 2 * n)
    ensures IsMatrix(b, n, n)
  {
    seq(n, i requires 0 <= i < n => w[i][n..])
  }

  ghost function Inverse(a: Matrix): (r: Option<Matrix>)
    requires IsMatrix(a, |a|, |a|)
    ensures r.Some? ==> IsMatrix(r.value, |a|, |a|)
  {
    match Reduce(Augment(a), 0, 2 * |a|)
    case None => None
    case Some(w) => Some(RightHalf(w, |a|))
  }

  // ----- what every round keeps

  // Every row of w is orthogonal to z.
  ghost predicate Annihilates(w: Matrix, z: Vector)
    requires IsMatrix(w, |w|, |z|)
  {
    forall i :: 0 <= i < |w| ==> Dot(w[i], z) == 0
  }

  // The first col columns are those of the identity.
  ghost predicate UnitColumns(w: Matrix, col: nat, cols: nat)
    requires IsMatrix(w, |w|, cols) && col <= cols
  {
    forall i, j :: 0 <= i < |w| && 0 <= j < col ==> w[i][j] == if i == j then 1 else 0
  }

  lemma {:induction false} SwapKeepsKernel(w: Matrix, i: nat, j: nat, z: Vector)
    requires IsMatrix(w, |w|, |z|) && i < |w| && j < |w|
    ensures Annihilates(SwapRows(w, i, j), z) <==> Annihilates(w, z)
  {
    hide Dot;
    var s := SwapRows(w, i, j);
    assert s[i] == w[j] && s[j] == w[i];
    assert forall r :: 0 <= r < |w| && r != i && r != j ==> s[r] == w[r];
  }

  lemma {:induction false} ScaleKeepsKernel(w: Matrix, i: nat, c: Byte, z: Vector)
    requires IsMatrix(w, |w|, |z|) && i < |w| && c != 0
    ensures Annihilates(ScaleRow(w, i, c), z) <==> Annihilates(w, z)
  {
    DotScale(c, w[i], z, |z|);
    ZeroMul(c);
    if Dot(w[i], z) != 0 { MulNonzero(c, Dot(w[i], z)); }
    hide Dot, Mul;
    var s := ScaleRow(w, i, c);
    assert s[i] == VecScale(c, w[i]);
    assert forall r :: 0 <= r < |w| && r != i ==> s[r] == w[r];
  }

  lemma {:induction false} ClearKeepsKernel(w: Matrix, col: nat, z: Vector)
    requires IsMatrix(w, |w|, |z|) && col < |w| <= |z|
    ensures Annihilates(ClearColumn(w, col, |z|), z) <==> Annihilates(w, z)
  {
    hide Add, Mul;
    var v := ClearColumn(w, col, |z|);
    assert v[col] == w[col];
    forall i | 0 <= i < |w| && i != col
      ensures Dot(w[col], z) == 0 ==> Dot(v[i], z) == Dot(w[i], z)
    {
      var f := w[i][col];
      DotAdd(w[i], VecScale(f, w[col]), z, |z|);
      DotScale(f, w[col], z, |z|);
      ZeroMul(f);
      AddZero(Dot(w[i], z));
    }
    hide Dot;
  }

  lemma {:induction false} StepKeepsKernel(w: Matrix, col: nat, z: Vector)
    requires IsMatrix(w, |w|, |z|) && col < |w| <= |z|
    requires Step(w, col, |z|).Some?
    ensures Annihilates(Step(w, col, |z|).value, z) <==> Annihilates(w, z)
  {
    hide Dot, Inv;
    var p := FindPivot(w, col, col);
    var s := SwapRows(w, col, p);
    InvIsInverse(s[col][col]);
    SwapKeepsKernel(w, col, p, z);
    ScaleKeepsKernel(s, col, Inv(s[col][col]), z);
    ClearKeepsKernel(ScaleRow(s, col, Inv(s[col][col])), col, z);
  }

  lemma {:induction false} StepExtendsUnitColumns(w: Matrix, col: nat, cols: nat)
    requires IsMatrix(w, |w|, cols) && col < |w| <= cols
    requires UnitColumns(w, col, cols) && Step(w, col, cols).Some?
    ensures UnitColumns(Step(w, col, cols).value, col + 1, cols)
  {
    hide Inv, Add, Mul;
    var p := FindPivot(w, col, col);
    var s := SwapRows(w, col, p);
    var c := Inv(s[col][col]);
    InvIsInverse(s[col][col]);
    var u := ScaleRow(s, col, c);
    var v := ClearColumn(u, col, cols);
    ZeroMul(c);
    forall j | 0 <= j < col ensures u[col][j] == 0 {
      assert w[col][j] == 0 && w[p][j] == 0;
    }
    assert u[col][col] == 1;
    forall i, j | 0 <= i < |w| && 0 <= j <= col ensures v[i][j] == if i == j then 1 else 0 {
      if i != col {
        assert u[i] == s[i];
        assert v[i][j] == Add(u[i][j], Mul(u[i][col], u[col][j]));
        ZeroMul(u[i][col]);
        AddZero(u[i][j]);
        if j == col {
          MulCommutes(u[i][col], 1);
          OneMul(u[i][col]);
          AddSelf(u[i][j]);
        }
      }
    }
  }

  // ----- the outcome of the whole elimination

  lemma {:induction false} ReduceIsSound(w: Matrix, col: nat, cols: nat)
    requires IsMatrix(w, |w|, cols) && col <= |w| <= cols
    requires UnitColumns(w, col, cols) && Reduce(w, col, cols).Some?
    ensures UnitColumns(Reduce(w, col, cols).value, |w|, cols)
    ensures forall z: Vector :: |z| == cols ==>
      (Annihilates(Reduce(w, col, cols).value, z) <==> Annihilates(w, z))
    decreases |w| - col
  {
    hide Annihilates, Step;
    if col < |w| {
      StepExtendsUnitColumns(w, col, cols);
      var v := Step(w, col, cols).value;
      ReduceIsSound(v, col + 1, cols);
      forall z: Vector | |z| == cols
        ensures Annihilates(Reduce(w, col, cols).value, z) <==> Annihilates(w, z)
      {
        StepKeepsKernel(w, col, z);
      }
    }
  }

  // A column without a pivot is a combination of the unit columns before it.
  lemma {:induction false} StuckColumn(w: Matrix, col: nat, cols: nat) returns (z: Vector)
    requires IsMatrix(w, |w|, cols) && col < |w| <= cols
    requires UnitColumns(w, col, cols) && FindPivot(w, col, col) == |w|
    ensures |z| == cols && z[col] == 1 && Annihilates(w, z)
    ensures forall j :: col < j < cols ==> z[j] == 0
  {
    hide Add, Mul;
    z := seq(cols, j => if 0 <= j < col then w[j][col] else if j == col then 1 else 0);
    forall i | 0 <= i < |w| ensures Dot(w[i], z) == 0 {
      var head := seq(cols, j => if 0 <= j < col then z[j] else 0);
      var rest := seq(cols, j => if j == col then 1 else 0);
      assert z == VecAdd(head, rest) by {
        forall j | 0 <= j < cols ensures z[j] == Add(head[j], rest[j]) { AddZero(z[j]); }
      }
      DotAddRight(w[i], head, rest);
      assert rest == Unit(cols, col);
      DotUnit(w[i], col);
      if i < col {
        DotSingle(w[i], head, cols, i);
        OneMul(head[i]);
        AddSelf(w[i][col]);
      } else {
        DotZero(w[i], head, cols);
        AddZero(0);
      }
    }
  }

  lemma {:induction false} ReduceIsComplete(w: Matrix, col: nat, cols: nat) returns (z: Vector)
    requires IsMatrix(w, |w|, cols) && col <= |w| <= cols
    requires UnitColumns(w, col, cols) && Reduce(w, col, cols).None?
    ensures |z| == cols && Annihilates(w, z)
    ensures exists j :: 0 <= j < |w| && z[j] != 0
    ensures forall j :: |w| <= j < cols ==> z[j] == 0
    decreases |w| - col
  {
    hide Annihilates;
    if FindPivot(w, col, col) == |w| {
      z := StuckColumn(w, col, cols);
    } else {
      var v := Step(w, col, cols).value;
      StepExtendsUnitColumns(w, col, cols);
      z := ReduceIsComplete(v, col + 1, cols);
      StepKeepsKernel(w, col, z);
    }
  }

  // ----- inversion

  ghost predicate TwoSidedInverse(a: Matrix, b: Matrix)
    requires IsMatrix(a, |a|, |a|)
  {
    IsMatrix(b, |a|, |a|) && MatMul(a, b, |a|) == Identity(|a|) && MatMul(b, a, |a|) == Identity(|a|)
  }

  ghost predicate Invertible(a: Matrix)
    requires IsMatrix(a, |a|, |a|)
  {
    exists b: Matrix :: TwoSidedInverse(a, b)
  }

  // Only the zero vector is mapped to zero.
  ghost predicate Injective(a: Matrix, cols: nat)
    requires IsMatrix(a, |a|, cols)
  {
    forall x: Vector :: |x| == cols && MatVec(a, x) == Zero(|a|) ==> x == Zero(cols)
  }

  lemma {:induction false} AugmentMeans(a: Matrix, x: Vector, y: Vector)
    requires IsMatrix(a, |a|, |a|) && |x| == |y| == |a|
    ensures Annihilates(Augment(a), x + y) <==> MatVec(a, x) == y
  {
    var n := |a|;
    forall i | 0 <= i < n ensures Dot(Augment(a)[i], x + y) == 0 <==> MatVec(a, x)[i] == y[i] {
      DotConcat(a[i], Unit(n, i), x, y, n);
      DotUnit(y, i);
      AddIsZero(Dot(a[i], x), y[i]);
      hide Add;
    }
    hide Dot;
  }

  lemma {:induction false} ReducedMeans(w: Matrix, n: nat, x: Vector, y: Vector)
    requires IsMatrix(w, n, 2 * n) && UnitColumns(w, n, 2 * n) && |x| == |y| == n
    ensures Annihilates(w, x + y) <==> x == MatVec(RightHalf(w, n), y)
  {
    var b := RightHalf(w, n);
    forall i | 0 <= i < n ensures Dot(w[i], x + y) == 0 <==> x[i] == MatVec(b, y)[i] {
      assert w[i] == Unit(n, i) + b[i];
      DotConcat(Unit(n, i), b[i], x, y, n);
      DotUnit(x, i);
      AddIsZero(x[i], Dot(b[i], y));
      hide Add;
    }
    hide Dot;
  }

  // The computed inverse solves every linear system exactly.
  lemma {:induction false} InverseSolves(a: Matrix, x: Vector, y: Vector)
    requires IsMatrix(a, |a|, |a|) && Inverse(a).Some? && |x| == |y| == |a|
    ensures MatVec(a, x) == y <==> x == MatVec(Inverse(a).value, y)
  {
    hide Annihilates, Step;
    var n := |a|;
    var w := Reduce(Augment(a), 0, 2 * n).value;
    assert UnitColumns(Augment(a), 0, 2 * n);
    ReduceIsSound(Augment(a), 0, 2 * n);
    AugmentMeans(a, x, y);
    ReducedMeans(w, n, x, y);
  }

  lemma {:induction false} InverseIsTwoSided(a: Matrix)
    requires IsMatrix(a, |a|, |a|) && Inverse(a).Some?
    ensures TwoSidedInverse(a, Inverse(a).value)
  {
    hide Dot, Inverse;
    var n, b := |a|, Inverse(a).value;
    forall i, j | 0 <= i < n && 0 <= j < n
      ensures MatMul(a, b, n)[i][j] == Identity(n)[i][j] && MatMul(b, a, n)[i][j] == Identity(n)[i][j]
    {
      var e := Unit(n, j);
      MatVecUnit(a, n, j);
      MatVecUnit(b, n, j);
      InverseSolves(a, Column(b, j), e);
      InverseSolves(a, e, Column(a, j));
      assert MatVec(a, Column(b, j))[i] == e[i];
      assert MatVec(b, Column(a, j))[i] == e[i];
    }
    forall i | 0 <= i < n
      ensures MatMul(a, b, n)[i] == Identity(n)[i] && MatMul(b, a, n)[i] == Identity(n)[i]
    {
      assert forall j :: 0 <= j < n ==> MatMul(a, b, n)[i][j] == Identity(n)[i][j];
      assert forall j :: 0 <= j < n ==> MatMul(b, a, n)[i][j] == Identity(n)[i][j];
    }
  }

  lemma {:induction false} IdentityVec(x: Vector)
    ensures MatVec(Identity(|x|), x) == x
  {
    forall i | 0 <= i < |x| ensures MatVec(Identity(|x|), x)[i] == x[i] { DotUnit(x, i); }
  }

  // A singular matrix maps some nonzero vector to zero.
  lemma {:induction false} SingularHasKernel(a: Matrix) returns (x: Vector)
    requires IsMatrix(a, |a|, |a|) && Inverse(a).None?
    ensures |x| == |a| && x != Zero(|a|) && MatVec(a, x) == Zero(|a|)
  {
    hide Annihilates, Step;
    var n := |a|;
    assert UnitColumns(Augment(a), 0, 2 * n);
    var z := ReduceIsComplete(Augment(a), 0, 2 * n);
    x := z[..n];
    assert z == x + Zero(n);
    AugmentMeans(a, x, Zero(n));
  }

  // Elimination succeeds exactly on the invertible matrices, which are exactly the injective ones.
  lemma {:induction false} InverseExistsIff(a: Matrix)
    requires IsMatrix(a, |a|, |a|)
    ensures Inverse(a).Some? <==> Invertible(a)
    ensures Inverse(a).Some? <==> Injective(a, |a|)
  {
    hide Inverse, Dot;
    var n := |a|;
    MatVecZero(a, n);
    if Inverse(a).Some? {
      InverseIsTwoSided(a);
      forall x: Vector | |x| == n && MatVec(a, x) == Zero(n) ensures x == Zero(n) {
        InverseSolves(a, x, Zero(n));
        InverseSolves(a, Zero(n), Zero(n));
      }
    } else {
      var x := SingularHasKernel(a);
      if Invertible(a) {
        var b: Matrix :| TwoSidedInverse(a, b);
        MatMulVec(b, a, x);
        MatVecZero(b, n);
        IdentityVec(x);
      }
    }
  }

  lemma {:induction false} InverseIsUnique(a: Matrix, b: Matrix, c: Matrix)
    requires IsMatrix(a, |a|, |a|) && TwoSidedInverse(a, b) && TwoSidedInverse(a, c)
    ensures b == c
  {
    hide Dot, MatMul;
    forall x: Vector | |x| == |a| ensures MatVec(b, x) == MatVec(c, x) {
      MatMulVec(a, c, x);
      MatMulVec(b, a, MatVec(c, x));
      IdentityVec(x);
      IdentityVec(MatVec(c, x));
    }
    MatrixByAction(b, c, |a|);
  }
}
