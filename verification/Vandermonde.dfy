// Polynomials over GF(2^8) and the Vandermonde matrices that evaluate them.
module Vandermonde {
  import opened Bytes
  import opened FieldLaws
  import opened LinearAlgebra
  import opened GaussJordan

  // The polynomial with coefficients p (constant term first) at the point a, by Horner's rule.
  function Eval(p: Vector, a: Byte): Byte {
    if p == [] then 0 else Add(p[0], Mul(a, Eval(p[1..], a)))
  }

  // The quotient of p by the linear polynomial with root a.
  function Quotient(p: Vector, a: Byte): (q: Vector)
    ensures |q| == if p == [] then 0 else |p| - 1
  {
    if |p| <= 1 then [] else [Eval(p[1..], a)] + Quotient(p[1..], a)
  }

  // p(b) = p(a) + (b + a) q(b)
  lemma {:induction false} DivideByRoot(p: Vector, a: Byte, b: Byte)
    ensures Eval(p, b) == Add(Eval(p, a), Mul(Add(b, a), Eval(Quotient(p, a), b)))
  {
    hide Add, Mul;
    var d := Add(b, a);
    ZeroMul(d);
    if p == [] {
      AddZero(0);
    } else if |p| == 1 {
      ZeroMul(a); ZeroMul(b);
      AddZero(Eval(p, a));
    } else {
      var t, q := p[1..], Quotient(p[1..], a);
      var s, r := Eval(t, a), Eval(q, b);
      assert Quotient(p, a)[1..] == q;
      DivideByRoot(t, a, b);
      DivisionStep(p[0], a, b, s, r);
    }
  }

  // c + b (s + (b + a) r) = (c + a s) + (b + a) (s + b r)
  lemma {:induction false} DivisionStep(c: Byte, a: Byte, b: Byte, s: Byte, r: Byte)
    ensures Add(c, Mul(b, Add(s, Mul(Add(b, a), r)))) == Add(Add(c, Mul(a, s)), Mul(Add(b, a), Add(s, Mul(b, r))))
  {
    hide Add, Mul;
    var d := Add(b, a);
    var sa, sb, e := Mul(a, s), Mul(b, s), Mul(b, Mul(d, r));
    MulAddRight(b, s, Mul(d, r));
    MulAddRight(d, s, Mul(b, r));
    MulAddLeft(b, a, s);
    MulAssociates(b, d, r);
    MulAssociates(d, b, r);
    MulCommutes(b, d);
    AddAssociates(Add(c, sa), Add(sb, sa), e);
    AddAssociates(c, sa, Add(sb, sa));
    AddCommutes(sb, sa);
    AddCancels(sa, sb);
    AddAssociates(c, sb, e);
  }

  lemma {:induction false} ZeroQuotient(p: Vector, a: Byte)
    requires p != [] && Quotient(p, a) == Zero(|p| - 1)
    ensures p[1..] == Zero(|p| - 1)
  {
    hide Add, Mul;
    if |p| > 1 {
      var t := p[1..];
      assert Quotient(p, a) == [Eval(t, a)] + Quotient(t, a);
      assert Quotient(p, a)[1..] == Quotient(t, a);
      ZeroQuotient(t, a);
      EvalConstant(t, a);
      assert Quotient(p, a)[0] == 0;
    }
  }

  lemma {:induction false} EvalZero(n: nat, a: Byte)
    ensures Eval(Zero(n), a) == 0
  {
    hide Add, Mul;
    if n > 0 {
      assert Zero(n)[1..] == Zero(n - 1);
      EvalZero(n - 1, a);
      ZeroMul(a);
      AddZero(0);
    }
  }

  lemma {:induction false} EvalConstant(p: Vector, a: Byte)
    requires p != [] && p[1..] == Zero(|p| - 1)
    ensures Eval(p, a) == p[0]
  {
    hide Add, Mul;
    EvalZero(|p| - 1, a);
    ZeroMul(a);
    AddZero(p[0]);
  }

  ghost predicate Distinct<T>(s: seq<T>) {
    forall i, j :: 0 <= i < j < |s| ==> s[i] != s[j]
  }

  // A polynomial with as many distinct roots as coefficients is zero.
  lemma {:induction false} RootsForceZero(p: Vector, roots: seq<Byte>)
    requires |roots| == |p| && Distinct(roots)
    requires forall i :: 0 <= i < |roots| ==> Eval(p, roots[i]) == 0
    ensures p == Zero(|p|)
    decreases |p|
  {
    hide Add, Mul;
    if p != [] {
      var a, q, rest := roots[0], Quotient(p, roots[0]), roots[1..];
      forall i | 0 <= i < |rest| ensures Eval(q, rest[i]) == 0 {
        var b := rest[i];
        assert b == roots[i + 1];
        DivideByRoot(p, a, b);
        AddIsZero(b, a);
        AddZero(Mul(Add(b, a), Eval(q, b)));
        if Eval(q, b) != 0 { MulNonzero(Add(b, a), Eval(q, b)); }
      }
      RootsForceZero(q, rest);
      ZeroQuotient(p, a);
      EvalConstant(p, a);
    }
  }

  // ----- evaluation as a dot product

  // 1, a, a^2, ...
  function PowerRow(a: Byte, k: nat): (r: Vector)
    ensures |r| == k && forall j :: 0 <= j < k ==> r[j] == Power(a, j)
  {
    seq(k, j requires 0 <= j < k => Power(a, j))
  }

  lemma {:induction false} EvalSnoc(p: Vector, c: Byte, a: Byte)
    ensures Eval(p + [c], a) == Add(Eval(p, a), Mul(Power(a, |p|), c))
  {
    hide Add, Mul;
    ZeroMul(a);
    if p == [] {
      OneMul(c);
      AddZero(c);
    } else {
      EvalSnoc(p[1..], c, a);
      assert (p + [c])[1..] == p[1..] + [c];
      MulAddRight(a, Eval(p[1..], a), Mul(Power(a, |p| - 1), c));
      MulAssociates(a, Power(a, |p| - 1), c);
      AddAssociates(p[0], Mul(a, Eval(p[1..], a)), Mul(Power(a, |p|), c));
    }
  }

  lemma {:induction false} DotIsEval(p: Vector, a: Byte, k: nat, n: nat)
    requires n <= |p| && n <= k
    ensures DotTo(PowerRow(a, k), p, n) == Eval(p[..n], a)
  {
    hide Add, Mul;
    if n > 0 {
      DotIsEval(p, a, k, n - 1);
      EvalSnoc(p[..n - 1], p[n - 1], a);
      assert p[..n] == p[..n - 1] + [p[n - 1]];
    }
  }

  // One evaluation row for each point.
  function EvaluationRows(points: seq<Byte>, k: nat): (v: Matrix)
    ensures IsMatrix(v, |points|, k)
  {
    seq(|points|, i requires 0 <= i < |points| => PowerRow(points[i], k))
  }

  lemma {:induction false} EvaluationIsInjective(points: seq<Byte>)
    requires Distinct(points)
    ensures Injective(EvaluationRows(points, |points|), |points|)
  {
    var k := |points|;
    var v := EvaluationRows(points, k);
    forall x: Vector | |x| == k && MatVec(v, x) == Zero(k) ensures x == Zero(k) {
      forall i | 0 <= i < k ensures Eval(x, points[i]) == 0 {
        DotIsEval(x, points[i], k, k);
        assert x[..k] == x;
        assert MatVec(v, x)[i] == 0;
      }
      RootsForceZero(x, points);
    }
  }

  lemma {:induction false} RowEvaluates(points: seq<Byte>, p: Vector, i: nat)
    requires i < |points|
    ensures MatVec(EvaluationRows(points, |p|), p)[i] == Eval(p, points[i])
  {
    hide Eval;
    DotIsEval(p, points[i], |p|, |p|);
    assert p[..|p|] == p;
  }
}
