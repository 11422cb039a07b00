// Vectors and matrices over GF(2^8).
module LinearAlgebra {
  import opened Bytes
  import opened FieldLaws

  type Vector = seq<Byte>
  type Matrix = seq<seq<Byte>>

  ghost predicate IsMatrix(a: Matrix, rows: nat, cols: nat) {
    |a| == rows && forall i :: 0 <= i < rows ==> |a[i]| == cols
  }

  // The first n terms of the dot product, added up from the left.
  function DotTo(a: Vector, x: Vector, n: nat): Byte
    requires n <= |a| && n <= |x|
  {
    if n == 0 then 0 else Add(DotTo(a, x, n - 1), Mul(a[n - 1], x[n - 1]))
  }

  function Dot(a: Vector, x: Vector): Byte
    requires |a| == |x|
  {
    DotTo(a, x, |a|)
  }

  // ----- vectors

  function Zero(n: nat): (z: Vector)
    ensures |z| == n && forall i :: 0 <= i < n ==> z[i] == 0
  {
    seq(n, _ => 0)
  }

  // The j-th unit vector.
  function Unit(n: nat, j: nat): (e: Vector)
    ensures |e| == n && forall i :: 0 <= i < n ==> e[i] == if i == j then 1 else 0
  {
    seq(n, i => if i == j then 1 else 0)
  }

  function VecAdd(x: Vector, y: Vector): (z: Vector)
    requires |x| == |y|
    ensures |z| == |x| && forall i :: 0 <= i < |x| ==> z[i] == Add(x[i], y[i])
  {
    seq(|x|, i requires 0 <= i < |x| => Add(x[i], y[i]))
  }

  function VecScale(c: Byte, x: Vector): (z: Vector)
    ensures |z| == |x| && forall i :: 0 <= i < |x| ==> z[i] == Mul(c, x[i])
  {
    seq(|x|, i requires 0 <= i < |x| => Mul(c, x[i]))
  }

  // ----- the dot product is bilinear

  lemma {:induction false} DotAgree(a: Vector, x: Vector, b: Vector, y: Vector, n: nat)
    requires n <= |a| && n <= |x| && n <= |b| && n <= |y|
    requires forall i :: 0 <= i < n ==> a[i] == b[i] && x[i] == y[i]
    ensures DotTo(a, x, n) == DotTo(b, y, n)
  {
    hide Add, Mul;
    if n > 0 { DotAgree(a, x, b, y, n - 1); }
  }

  lemma {:induction false} DotCommutes(a: Vector, x: Vector, n: nat)
    requires n <= |a| && n <= |x|
    ensures DotTo(a, x, n) == DotTo(x, a, n)
  {
    hide Add, Mul;
    if n > 0 {
      DotCommutes(a, x, n - 1);
      MulCommutes(a[n - 1], x[n - 1]);
    }
  }

  lemma {:induction false} DotAdd(a: Vector, b: Vector, x: Vector, n: nat)
    requires |a| == |b| && n <= |a| && n <= |x|
    ensures DotTo(VecAdd(a, b), x, n) == Add(DotTo(a, x, n), DotTo(b, x, n))
  {
    hide Add, Mul;
    AddZero(0);
    if n > 0 {
      DotAdd(a, b, x, n - 1);
      MulAddLeft(a[n - 1], b[n - 1], x[n - 1]);
      AddInterchange(DotTo(a, x, n - 1), DotTo(b, x, n - 1), Mul(a[n - 1], x[n - 1]), Mul(b[n - 1], x[n - 1]));
    }
  }

  lemma {:induction false} DotScale(c: Byte, a: Vector, x: Vector, n: nat)
    requires n <= |a| && n <= |x|
    ensures DotTo(VecScale(c, a), x, n) == Mul(c, DotTo(a, x, n))
  {
    hide Add, Mul;
    ZeroMul(c);
    if n > 0 {
      DotScale(c, a, x, n - 1);
      MulAssociates(c, a[n - 1], x[n - 1]);
      MulAddRight(c, DotTo(a, x, n - 1), Mul(a[n - 1], x[n - 1]));
    }
  }

  lemma {:induction false} DotAddRight(a: Vector, x: Vector, y: Vector)
    requires |a| == |x| == |y|
    ensures Dot(a, VecAdd(x, y)) == Add(Dot(a, x), Dot(a, y))
  {
    hide Add, Mul;
    DotCommutes(a, VecAdd(x, y), |a|);
    DotAdd(x, y, a, |a|);
    DotCommutes(a, x, |a|);
    DotCommutes(a, y, |a|);
  }

  lemma {:induction false} DotScaleRight(a: Vector, c: Byte, x: Vector)
    requires |a| == |x|
    ensures Dot(a, VecScale(c, x)) == Mul(c, Dot(a, x))
  {
    hide Add, Mul;
    DotCommutes(a, VecScale(c, x), |a|);
    DotScale(c, x, a, |a|);
    DotCommutes(a, x, |a|);
  }

  lemma {:induction false} DotZero(a: Vector, x: Vector, n: nat)
    requires n <= |a| && n <= |x|
    requires forall i :: 0 <= i < n ==> a[i] == 0 || x[i] == 0
    ensures DotTo(a, x, n) == 0
  {
    hide Add, Mul;
    if n > 0 {
      DotZero(a, x, n - 1);
      ZeroMul(a[n - 1]);
      ZeroMul(x[n - 1]);
      AddZero(0);
    }
  }

  // Only the term at j survives.
  lemma {:induction false} DotSingle(a: Vector, x: Vector, n: nat, j: nat)
    requires n <= |a| && n <= |x| && j < n
    requires forall i :: 0 <= i < n && i != j ==> a[i] == 0 || x[i] == 0
    ensures DotTo(a, x, n) == Mul(a[j], x[j])
  {
    hide Add, Mul;
    if j == n - 1 {
      DotZero(a, x, n - 1);
      AddZero(Mul(a[j], x[j]));
    } else {
      DotSingle(a, x, n - 1, j);
      ZeroMul(a[n - 1]);
      ZeroMul(x[n - 1]);
      AddZero(Mul(a[j], x[j]));
    }
  }

  lemma {:induction false} DotUnit(x: Vector, j: nat)
    requires j < |x|
    ensures Dot(Unit(|x|, j), x) == x[j] && Dot(x, Unit(|x|, j)) == x[j]
  {
    hide Add, Mul;
    DotSingle(Unit(|x|, j), x, |x|, j);
    OneMul(x[j]);
    DotCommutes(x, Unit(|x|, j), |x|);
  }

  lemma {:induction false} DotConcat(a: Vector, b: Vector, x: Vector, y: Vector, n: nat)
    requires |a| == |x| && |b| == |y| && n <= |b|
    ensures DotTo(a + b, x + y, |a| + n) == Add(Dot(a, x), DotTo(b, y, n))
  {
    hide Add, Mul;
    if n == 0 {
      DotAgree(a + b, x + y, a, x, |a|);
      AddZero(Dot(a, x));
    } else {
      DotConcat(a, b, x, y, n - 1);
      AddAssociates(Dot(a, x), DotTo(b, y, n - 1), Mul(b[n - 1], y[n - 1]));
    }
  }

  // ----- matrices

  function MatVec(a: Matrix, x: Vector): (y: Vector)
    requires IsMatrix(a, |a|, |x|)
    ensures |y| == |a| && forall i :: 0 <= i < |a| ==> y[i] == Dot(a[i], x)
  {
    seq(|a|, i requires 0 <= i < |a| => Dot(a[i], x))
  }

  function Column(b: Matrix, j: nat): (c: Vector)
    requires forall i :: 0 <= i < |b| ==> j < |b[i]|
    ensures |c| == |b| && forall i :: 0 <= i < |b| ==> c[i] == b[i][j]
  {
    seq(|b|, i requires 0 <= i < |b| => b[i][j])
  }

  function MatMul(a: Matrix, b: Matrix, cols: nat): (c: Matrix)
    requires IsMatrix(a, |a|, |b|) && IsMatrix(b, |b|, cols)
    ensures IsMatrix(c, |a|, cols)
    ensures forall i, j :: 0 <= i < |a| && 0 <= j < cols ==> c[i][j] == Dot(a[i], Column(b, j))
  {
    seq(|a|, i requires 0 <= i < |a| => seq(cols, j requires 0 <= j < cols => Dot(a[i], Column(b, j))))
  }

  function Identity(n: nat): (e: Matrix)
    ensures IsMatrix(e, n, n) && forall i :: 0 <= i < n ==> e[i] == Unit(n, i)
  {
    seq(n, i requires 0 <= i < n => Unit(n, i))
  }

  lemma {:induction false} MatVecUnit(a: Matrix, n: nat, j: nat)
    requires IsMatrix(a, |a|, n) && j < n
    ensures MatVec(a, Unit(n, j)) == Column(a, j)
  {
    forall i | 0 <= i < |a| ensures Dot(a[i], Unit(n, j)) == a[i][j] { DotUnit(a[i], j); }
  }

  lemma {:induction false} MatVecZero(a: Matrix, n: nat)
    requires IsMatrix(a, |a|, n)
    ensures MatVec(a, Zero(n)) == Zero(|a|)
  {
    forall i | 0 <= i < |a| ensures Dot(a[i], Zero(n)) == 0 { DotZero(a[i], Zero(n), n); }
  }

  // The columns of b up to n, combined with the coefficients x.
  function Combine(b: Matrix, x: Vector, n: nat): (y: Vector)
    requires IsMatrix(b, |b|, |x|) && n <= |x|
    ensures |y| == |b| && forall i :: 0 <= i < |b| ==> y[i] == DotTo(b[i], x, n)
  {
    seq(|b|, i requires 0 <= i < |b| => DotTo(b[i], x, n))
  }

  lemma {:induction false} DotOfCombination(row: Vector, ab: Vector, b: Matrix, x: Vector, n: nat)
    requires |row| == |b| && IsMatrix(b, |b|, |x|) && |ab| == |x| && n <= |x|
    requires forall j :: 0 <= j < |x| ==> ab[j] == Dot(row, Column(b, j))
    ensures DotTo(ab, x, n) == Dot(row, Combine(b, x, n))
  {
    hide Add, Mul;
    if n == 0 {
      DotZero(row, Combine(b, x, 0), |row|);
    } else {
      var c := Column(b, n - 1);
      DotOfCombination(row, ab, b, x, n - 1);
      DotScaleRight(row, x[n - 1], c);
      DotAddRight(row, Combine(b, x, n - 1), VecScale(x[n - 1], c));
      MulCommutes(ab[n - 1], x[n - 1]);
      forall i | 0 <= i < |b| ensures Mul(b[i][n - 1], x[n - 1]) == Mul(x[n - 1], b[i][n - 1]) {
        MulCommutes(b[i][n - 1], x[n - 1]);
      }
      assert Combine(b, x, n) == VecAdd(Combine(b, x, n - 1), VecScale(x[n - 1], c));
    }
  }

  // (A B) x = A (B x)
  lemma {:induction false} MatMulVec(a: Matrix, b: Matrix, x: Vector)
    requires IsMatrix(a, |a|, |b|) && IsMatrix(b, |b|, |x|)
    ensures MatVec(MatMul(a, b, |x|), x) == MatVec(a, MatVec(b, x))
  {
    var ab := MatMul(a, b, |x|);
    assert Combine(b, x, |x|) == MatVec(b, x);
    forall i | 0 <= i < |a| ensures Dot(ab[i], x) == Dot(a[i], MatVec(b, x)) {
      DotOfCombination(a[i], ab[i], b, x, |x|);
    }
  }

  // A matrix whose action on every vector is known is determined.
  lemma {:induction false} MatrixByAction(a: Matrix, b: Matrix, n: nat)
    requires IsMatrix(a, |a|, n) && IsMatrix(b, |a|, n)
    requires forall x: Vector :: |x| == n ==> MatVec(a, x) == MatVec(b, x)
    ensures a == b
  {
    forall i, j | 0 <= i < |a| && 0 <= j < n ensures a[i][j] == b[i][j] {
      MatVecUnit(a, n, j);
      MatVecUnit(b, n, j);
      assert MatVec(a, Unit(n, j)) == MatVec(b, Unit(n, j));
      assert Column(a, j)[i] == Column(b, j)[i];
    }
    forall i | 0 <= i < |a| ensures a[i] == b[i] {
      assert forall j :: 0 <= j < n ==> a[i][j] == b[i][j];
    }
  }
}
