// Arithmetic of GF(2^8): polynomials over GF(2) modulo x^8 + x^4 + x^3 + x^2 + 1 (0x11D).
module FieldLaws {
  import opened Bytes

  // One doubling step: multiplication by x, reduced modulo 0x11D.
  function Double(a: Byte): Byte {
    if a & 0x80 != 0 then (a << 1) ^ 0x1D else a << 1
  }

  function DoubleN(n: nat, a: Byte): Byte {
    if n == 0 then a else Double(DoubleN(n - 1, a))
  }

  // x to the power n.
  function XPow(n: nat): Byte { DoubleN(n, 1) }

  // The product of two polynomials modulo 0x11D: shift and add over the coefficients of b.
  // This is the reference against which the table-driven product is proved.
  function Mul(a: Byte, b: Byte): Byte
    decreases b
  {
    if b == 0 then 0 else Add(if b & 1 != 0 then a else 0, Mul(Double(a), b >> 1))
  }

  // ----- the doubling step is linear and injective

  lemma {:induction false} DoubleByProduct(a: Byte)
    ensures Double(a) == (a << 1) ^ ((a >> 7) * 0x1D)
  {}

  lemma {:induction false} DoubleLinear(a: Byte, b: Byte)
    ensures Double(Add(a, b)) == Add(Double(a), Double(b))
  {
    DoubleByProduct(a);
    DoubleByProduct(b);
    DoubleByProduct(a ^ b);
  }

  lemma {:induction false} DoubleInjective(a: Byte, b: Byte)
    requires Double(a) == Double(b)
    ensures a == b
  {
    DoubleLinear(a, b);
    var c := a ^ b;
    assert c == 0 by { DoubleByProduct(c); }
  }

  lemma {:induction false} DoubleNAdd(m: nat, n: nat, a: Byte)
    ensures DoubleN(m + n, a) == DoubleN(m, DoubleN(n, a))
  {
    if m > 0 { DoubleNAdd(m - 1, n, a); }
  }

  lemma {:induction false} DoubleNInjective(n: nat, a: Byte, b: Byte)
    requires DoubleN(n, a) == DoubleN(n, b)
    ensures a == b
  {
    if n > 0 {
      DoubleInjective(DoubleN(n - 1, a), DoubleN(n - 1, b));
      DoubleNInjective(n - 1, a, b);
    }
  }

  // ----- the product is the remainder modulo 0x11D

  function Wide(a: Byte): bv16 { a as bv16 }

  function Xor(a: bv16, b: bv16): bv16 { a ^ b }

  function Up(a: bv16): bv16 { a << 1 }

  function Half(b: Byte): Byte { b >> 1 }

  // a, if b has a constant term.
  function Term(a: bv16, b: Byte): bv16 { if b & 1 != 0 then a else 0 }

  // The product of two polynomials over GF(2) as it is, over the n lowest coefficients of b.
  function Carryless(a: bv16, b: Byte, n: nat): bv16
    decreases n
  {
    if n == 0 then 0 else Xor(Term(a, b), Carryless(Up(a), Half(b), n - 1))
  }

  predicate HasBits(b: Byte, n: nat)
    decreases n
  {
    if n == 0 then b == 0 else HasBits(Half(b), n - 1)
  }

  lemma {:induction false} EightBits(b: Byte)
    ensures HasBits(b, 8)
  {
    var c := Half(Half(Half(Half(b))));
    assert HasBits(b, 8) == HasBits(Half(Half(b)), 6);
    assert HasBits(Half(Half(b)), 6) == HasBits(c, 4);
    assert HasBits(c, 4) == HasBits(Half(Half(c)), 2);
    assert Half(Half(Half(Half(c)))) == 0;
  }

  lemma {:induction false} XorCommutes(a: bv16, b: bv16)
    ensures Xor(a, b) == Xor(b, a)
  {}

  lemma {:induction false} XorAssociates(a: bv16, b: bv16, c: bv16)
    ensures Xor(Xor(a, b), c) == Xor(a, Xor(b, c))
  {}

  lemma {:induction false} XorZero(a: bv16)
    ensures Xor(0, a) == a && Xor(a, a) == 0
  {}

  lemma {:induction false} XorInterchange(a: bv16, b: bv16, c: bv16, d: bv16)
    ensures Xor(Xor(a, b), Xor(c, d)) == Xor(Xor(a, c), Xor(b, d))
  {
    hide Xor;
    XorAssociates(a, b, Xor(c, d));
    XorAssociates(b, c, d);
    XorCommutes(b, c);
    XorAssociates(c, b, d);
    XorAssociates(a, c, Xor(b, d));
  }

  lemma {:induction false} UpLinear(a: bv16, a': bv16)
    ensures Up(Xor(a, a')) == Xor(Up(a), Up(a'))
  {}

  lemma {:induction false} HalfLinear(b: Byte, b': Byte)
    ensures Half(Add(b, b')) == Add(Half(b), Half(b'))
  {}

  lemma {:induction false} TermLinearLeft(a: bv16, a': bv16, b: Byte)
    ensures Term(Xor(a, a'), b) == Xor(Term(a, b), Term(a', b))
  {}

  lemma {:induction false} TermLinearRight(a: bv16, b: Byte, b': Byte)
    ensures Term(a, Add(b, b')) == Xor(Term(a, b), Term(a, b'))
  {
    LowestAdds(b, b');
    hide Add, Xor;
    XorZero(a);
    XorZero(0);
    XorCommutes(0, a);
  }

  lemma {:induction false} LowestAdds(b: Byte, b': Byte)
    ensures (Add(b, b') & 1 != 0) == ((b & 1 != 0) != (b' & 1 != 0))
  {}

  lemma {:induction false} CarrylessXorLeft(a: bv16, a': bv16, b: Byte, n: nat)
    ensures Carryless(Xor(a, a'), b, n) == Xor(Carryless(a, b, n), Carryless(a', b, n))
    decreases n
  {
    if n > 0 {
      UpLinear(a, a');
      TermLinearLeft(a, a', b);
      CarrylessXorLeft(Up(a), Up(a'), Half(b), n - 1);
      hide Xor, Up, Half, Term;
      XorInterchange(Term(a, b), Term(a', b), Carryless(Up(a), Half(b), n - 1), Carryless(Up(a'), Half(b), n - 1));
    }
  }

  lemma {:induction false} CarrylessXorRight(a: bv16, b: Byte, b': Byte, n: nat)
    ensures Carryless(a, Add(b, b'), n) == Xor(Carryless(a, b, n), Carryless(a, b', n))
    decreases n
  {
    if n > 0 {
      HalfLinear(b, b');
      TermLinearRight(a, b, b');
      CarrylessXorRight(Up(a), Half(b), Half(b'), n - 1);
      hide Xor, Up, Half, Term;
      XorInterchange(Term(a, b), Term(a, b'), Carryless(Up(a), Half(b), n - 1), Carryless(Up(a), Half(b'), n - 1));
    }
  }

  lemma {:induction false} CarrylessNothing(a: bv16, b: Byte, n: nat)
    ensures Carryless(0, b, n) == 0 && Carryless(a, 0, n) == 0
    decreases n
  {
    if n > 0 { CarrylessNothing(Up(a), Half(b), n - 1); }
  }

  // Coefficients that are zero add nothing.
  lemma {:induction false} CarrylessLonger(a: bv16, b: Byte, n: nat, m: nat)
    requires HasBits(b, n) && n <= m
    ensures Carryless(a, b, n) == Carryless(a, b, m)
    decreases n
  {
    if n == 0 {
      CarrylessNothing(a, b, m);
    } else {
      hide Xor, Up, Half, Term;
      CarrylessLonger(Up(a), Half(b), n - 1, m - 1);
    }
  }

  // Doubling takes 0x11D away when the shift reaches bit 8.
  lemma {:induction false} DoubleWide(a: Byte)
    ensures Up(Wide(a)) == Xor(Wide(Double(a)), if a & 0x80 != 0 then 0x11D else 0)
  {}

  lemma {:induction false} MulStep(a: Byte, b: Byte)
    ensures Wide(Mul(a, b)) == Xor(Term(Wide(a), b), Wide(Mul(Double(a), Half(b))))
  {
    assert Mul(Double(a), 0) == 0;
    WideAdd(if b & 1 != 0 then a else 0, Mul(Double(a), Half(b)));
  }

  lemma {:induction false} WideAdd(a: Byte, b: Byte)
    ensures Wide(Add(a, b)) == Xor(Wide(a), Wide(b))
  {}

  // What the product leaves out of the n lowest coefficients is a multiple of 0x11D.
  lemma {:induction false} RemainderUpTo(a: Byte, b: Byte, n: nat) returns (q: Byte)
    requires n <= 8 && HasBits(b, n)
    ensures Carryless(Wide(a), b, n) == Xor(Wide(Mul(a, b)), Carryless(0x11D, q, 8))
    decreases n
  {
    if n == 0 {
      q := 0;
      CarrylessNothing(0x11D, 0, 8);
      assert Mul(a, b) == 0;
    } else {
      q := RemainderUpTo(Double(a), Half(b), n - 1);
      var over: bv16 := if a & 0x80 != 0 then 0x11D else 0;
      var more: Byte := if a & 0x80 != 0 then Half(b) else 0;
      DoubleWide(a);
      MulStep(a, b);
      hide Mul, Xor, Up, Half, Term, Wide, Add;
      CarrylessXorLeft(Wide(Double(a)), over, Half(b), n - 1);
      CarrylessLonger(0x11D, Half(b), n - 1, 8);
      CarrylessNothing(0x11D, Half(b), n - 1);
      CarrylessNothing(0x11D, Half(b), 8);
      assert Carryless(over, Half(b), n - 1) == Carryless(0x11D, more, 8);
      CarrylessXorRight(0x11D, q, more, 8);
      XorAssociates(Wide(Mul(Double(a), Half(b))), Carryless(0x11D, q, 8), Carryless(0x11D, more, 8));
      XorAssociates(Term(Wide(a), b), Wide(Mul(Double(a), Half(b))), Carryless(0x11D, Add(q, more), 8));
      q := Add(q, more);
    }
  }

  // The product is the remainder of the unreduced one modulo x^8 + x^4 + x^3 + x^2 + 1.
  lemma {:induction false} ProductIsRemainder(a: Byte, b: Byte)
    ensures exists q: Byte :: Carryless(Wide(a), b, 8) == Xor(Wide(Mul(a, b)), Carryless(0x11D, q, 8))
  {
    EightBits(b);
    var q := RemainderUpTo(a, b, 8);
  }

  // ----- x has multiplicative order 255

  lemma {:induction false} Jump(n: nat, a: Byte, c: Byte)
    requires XPow(n) == a && DoubleN(8, a) == c
    ensures XPow(n + 8) == c
  {
    DoubleNAdd(8, n, 1);
  }

  lemma {:induction false} PowersTo88()
    ensures XPow(8) == 29 && XPow(48) == 70 && XPow(80) == 253 && XPow(88) == 254
  {
    Jump(0, 1, 29); Jump(8, 29, 76); Jump(16, 76, 143); Jump(24, 143, 157);
    Jump(32, 157, 106); Jump(40, 106, 70); Jump(48, 70, 93); Jump(56, 93, 95);
    Jump(64, 95, 101); Jump(72, 101, 253); Jump(80, 253, 254);
  }

  lemma {:induction false} PowersTo168()
    ensures XPow(168) == 252
  {
    PowersTo88();
    Jump(88, 254, 217); Jump(96, 217, 13); Jump(104, 13, 129); Jump(112, 129, 59); Jump(120, 59, 133);
    Jump(128, 133, 79); Jump(136, 79, 168); Jump(144, 168, 73); Jump(152, 73, 230); Jump(160, 230, 252);
  }

  lemma {:induction false} PowersTo248()
    ensures XPow(248) == 27
  {
    PowersTo168();
    Jump(168, 252, 227); Jump(176, 227, 149); Jump(184, 149, 130); Jump(192, 130, 28); Jump(200, 28, 81);
    Jump(208, 81, 195); Jump(216, 195, 18); Jump(224, 18, 247); Jump(232, 247, 44); Jump(240, 44, 27);
  }

  lemma {:induction false} Period()
    ensures XPow(255) == 1
  {
    PowersTo248();
    DoubleNAdd(7, 248, 1);
    assert DoubleN(7, 27) == 1;
  }

  // x^15, x^51 and x^85 differ from 1, so the order of x is not a proper divisor of 255.
  lemma {:induction false} CofactorPowers()
    ensures XPow(15) != 1 && XPow(51) != 1 && XPow(85) != 1
  {
    PowersTo88();
    DoubleNAdd(7, 8, 1);
    DoubleNAdd(3, 48, 1);
    DoubleNAdd(5, 80, 1);
    assert DoubleN(7, 29) == 38;
    assert DoubleN(3, 70) == 10;
    assert DoubleN(5, 253) == 214;
  }

  lemma {:induction false} PowersOfOne(d: nat, q: nat, r: nat)
    requires XPow(d) == 1
    ensures XPow(q * d + r) == XPow(r)
  {
    if q > 0 {
      assert q * d + r == (q - 1) * d + r + d;
      DoubleNAdd((q - 1) * d + r, d, 1);
      PowersOfOne(d, q - 1, r);
    }
  }

  lemma {:induction false} ProperDivisors(d: nat, q: nat)
    requires 0 < d < 255 && q * d == 255
    ensures d == 1 || d == 3 || d == 5 || d == 15 || d == 17 || d == 51 || d == 85
  {
    if d > 15 {
      assert q <= 15;
    }
  }

  // No smaller positive power of x is 1.
  lemma {:induction false} OrderIsNotSmaller(d: nat)
    requires 0 < d < 255
    ensures XPow(d) != 1
  {
    hide XPow;
    if XPow(d) == 1 {
      var q, r := 255 / d, 255 % d;
      Period();
      PowersOfOne(d, q, r);
      if r > 0 {
        OrderIsNotSmaller(r);
      } else {
        ProperDivisors(d, q);
        PowersOfOne(d, 15 / d, 0);
        PowersOfOne(d, 51 / d, 0);
        PowersOfOne(d, 85 / d, 0);
        CofactorPowers();
        XPowZero();
      }
    }
  }

  lemma {:induction false} XPowZero()
    ensures XPow(0) == 1
  {}

  lemma {:induction false} XPowInjective(i: nat, j: nat)
    requires i < 255 && j < 255 && XPow(i) == XPow(j)
    ensures i == j
  {
    if i < j {
      DoubleNAdd(i, j - i, 1);
      DoubleNInjective(i, 1, XPow(j - i));
      OrderIsNotSmaller(j - i);
    } else if j < i {
      DoubleNAdd(j, i - j, 1);
      DoubleNInjective(j, 1, XPow(i - j));
      OrderIsNotSmaller(i - j);
    }
  }

  lemma {:induction false} XPowMod(n: nat)
    ensures XPow(n) == XPow(n % 255)
  {
    Period();
    PowersOfOne(255, n / 255, n % 255);
  }

  lemma {:induction false} XPowNonzero(n: nat)
    ensures XPow(n) != 0
  {
    if n > 0 {
      XPowNonzero(n - 1);
      if XPow(n) == 0 { DoubleInjective(XPow(n - 1), 0); }
    }
  }

  // ----- every nonzero byte is a power of x

  ghost function Exponents(n: nat): set<int> { set i | 0 <= i < n :: Index(XPow(i)) }

  lemma {:induction false} ExponentCount(n: nat)
    requires n <= 255
    ensures |Exponents(n)| == n
  {
    hide Index, XPow;
    if n > 0 {
      ExponentCount(n - 1);
      var e := Index(XPow(n - 1));
      if e in Exponents(n - 1) {
        var i :| 0 <= i < n - 1 && Index(XPow(i)) == e;
        IndexInjective(XPow(i), XPow(n - 1));
        XPowInjective(i, n - 1);
      }
      assert Exponents(n) == Exponents(n - 1) + {e};
    }
  }

  function UpTo(n: nat): (s: set<int>)
    ensures forall v :: v in s <==> 0 < v <= n
    ensures |s| == n
  {
    if n == 0 then {} else UpTo(n - 1) + {n}
  }

  lemma {:induction false} SubsetSize<T>(a: set<T>, b: set<T>)
    requires a <= b
    ensures |a| <= |b|
  {
    if a != {} {
      var v :| v in a;
      SubsetSize(a - {v}, b - {v});
    }
  }

  lemma {:induction false} ExponentsAreNonzero(n: nat)
    ensures Exponents(n) <= UpTo(255)
  {
    hide Index, XPow;
    forall v | v in Exponents(n) ensures 0 < v <= 255 {
      var j :| 0 <= j < n && Index(XPow(j)) == v;
      XPowNonzero(j);
      IndexRange(XPow(j));
    }
  }

  lemma {:induction false} EveryNonzeroIsAPower(b: Byte)
    requires b != 0
    ensures exists i :: 0 <= i < 255 && XPow(i) == b
  {
    hide Index, XPow;
    ExponentCount(255);
    ExponentsAreNonzero(255);
    IndexRange(b);
    if Index(b) !in Exponents(255) {
      SubsetSize(Exponents(255), UpTo(255) - {Index(b)});
    }
    var i :| 0 <= i < 255 && Index(XPow(i)) == Index(b);
    IndexInjective(XPow(i), b);
  }

  // The discrete logarithm to base x.
  ghost function Log(b: Byte): (i: nat)
    requires b != 0
    ensures i < 255 && XPow(i) == b
  {
    EveryNonzeroIsAPower(b);
    var i :| 0 <= i < 255 && XPow(i) == b;
    i
  }

  // ----- field laws

  lemma {:induction false} MulAddLeft(a: Byte, a': Byte, b: Byte)
    ensures Mul(Add(a, a'), b) == Add(Mul(a, b), Mul(a', b))
    decreases b
  {
    if b != 0 {
      DoubleLinear(a, a');
      MulAddLeft(Double(a), Double(a'), b >> 1);
      var c, c' := if b & 1 != 0 then a else 0, if b & 1 != 0 then a' else 0;
      AddInterchange(c, Mul(Double(a), b >> 1), c', Mul(Double(a'), b >> 1));
      AddZero(0);
      hide Double, Add;
    } else {
      AddZero(0);
    }
  }

  lemma {:induction false} MulDouble(a: Byte, b: Byte)
    ensures Mul(Double(a), b) == Double(Mul(a, b))
    decreases b
  {
    DoubleZero();
    if b != 0 {
      MulDouble(Double(a), b >> 1);
      DoubleLinear(if b & 1 != 0 then a else 0, Mul(Double(a), b >> 1));
      hide Double, Add;
    }
  }

  lemma {:induction false} DoubleZero()
    ensures Double(0) == 0
  {}

  lemma {:induction false} SixteenMul(b: Byte)
    requires b < 16
    ensures Mul(16, b) == b << 4
  {
    assert Mul(0x80, b >> 3) == (b >> 3) << 7;
    assert Mul(0x40, b >> 2) == (b >> 2) << 6;
    assert Mul(0x20, b >> 1) == (b >> 1) << 5;
  }

  lemma {:induction false} FourMul(b: Byte)
    requires b < 64
    ensures Mul(4, b) == b << 2
  {
    SixteenMul(b >> 2);
    assert Mul(8, b >> 1) == (b >> 1) << 3;
  }

  lemma {:induction false} OneMul(b: Byte)
    ensures Mul(1, b) == b
  {
    FourMul(b >> 2);
    assert Mul(2, b >> 1) == (b >> 1) << 1;
  }

  lemma {:induction false} MulXPow(i: nat, b: Byte)
    ensures Mul(XPow(i), b) == DoubleN(i, b)
  {
    if i == 0 {
      OneMul(b);
    } else {
      MulXPow(i - 1, b);
      MulDouble(XPow(i - 1), b);
      hide Mul, Double;
    }
  }

  lemma {:induction false} XPowAdd(i: nat, j: nat)
    ensures Mul(XPow(i), XPow(j)) == XPow(i + j)
  {
    hide Mul;
    MulXPow(i, XPow(j));
    DoubleNAdd(i, j, 1);
  }

  lemma {:induction false} ZeroMul(b: Byte)
    ensures Mul(0, b) == 0 && Mul(b, 0) == 0
    decreases b
  {
    if b != 0 { ZeroMul(b >> 1); }
  }

  lemma {:induction false} MulCommutes(a: Byte, b: Byte)
    ensures Mul(a, b) == Mul(b, a)
  {
    hide Mul, XPow;
    if a == 0 {
      ZeroMul(b);
    } else if b == 0 {
      ZeroMul(a);
    } else {
      XPowAdd(Log(a), Log(b));
      XPowAdd(Log(b), Log(a));
    }
  }

  lemma {:induction false} MulAddRight(a: Byte, b: Byte, b': Byte)
    ensures Mul(a, Add(b, b')) == Add(Mul(a, b), Mul(a, b'))
  {
    hide Mul, Add;
    MulCommutes(a, Add(b, b'));
    MulCommutes(a, b);
    MulCommutes(a, b');
    MulAddLeft(b, b', a);
  }

  lemma {:induction false} MulNonzero(a: Byte, b: Byte)
    requires a != 0 && b != 0
    ensures Mul(a, b) != 0
  {
    hide Mul, XPow;
    XPowAdd(Log(a), Log(b));
    XPowNonzero(Log(a) + Log(b));
  }

  lemma {:induction false} MulAssociates(a: Byte, b: Byte, c: Byte)
    ensures Mul(Mul(a, b), c) == Mul(a, Mul(b, c))
  {
    if a == 0 || b == 0 || c == 0 {
      ZeroMul(a); ZeroMul(b); ZeroMul(c); ZeroMul(Mul(a, b)); ZeroMul(Mul(b, c));
      hide Mul;
    } else {
      XPowAssociates(Log(a), Log(b), Log(c));
    }
  }

  lemma {:induction false} XPowAssociates(i: nat, j: nat, k: nat)
    ensures Mul(Mul(XPow(i), XPow(j)), XPow(k)) == Mul(XPow(i), Mul(XPow(j), XPow(k)))
  {
    hide Mul, XPow;
    XPowAdd(i, j);
    XPowAdd(j, k);
    XPowAdd(i + j, k);
    XPowAdd(i, j + k);
    assert i + j + k == i + (j + k);
  }

  // The multiplicative inverse; 0 is sent to 0.
  ghost function Inv(a: Byte): Byte {
    if a == 0 then 0 else XPow(255 - Log(a))
  }

  lemma {:induction false} InvIsInverse(a: Byte)
    requires a != 0
    ensures Mul(a, Inv(a)) == 1 && Mul(Inv(a), a) == 1 && Inv(a) != 0
  {
    hide Mul, XPow;
    XPowAdd(Log(a), 255 - Log(a));
    XPowAdd(255 - Log(a), Log(a));
    Period();
    XPowNonzero(255 - Log(a));
  }

  // The product of n copies of a.
  function Power(a: Byte, n: nat): Byte {
    if n == 0 then 1 else Mul(a, Power(a, n - 1))
  }

  lemma {:induction false} PowerByLog(a: Byte, n: nat)
    requires a != 0
    ensures Power(a, n) == XPow(Log(a) * n)
  {
    hide XPow, Mul;
    XPowZero();
    if n > 0 {
      PowerByLog(a, n - 1);
      XPowAdd(Log(a), Log(a) * (n - 1));
      assert Log(a) * n == Log(a) + Log(a) * (n - 1);
    }
  }
}

// The table-driven field of reed_solomon.h.
module GaloisTables {
  import opened Bytes
  import F = FieldLaws

  // The tables are filled once and never change.
  class GaloisField {
    const exp: seq<Byte>
    const log: seq<nat>

    // exp[i] is x^i, and log inverts exp on the nonzero bytes.
    ghost predicate Valid() {
      |exp| == 512 && |log| == 256 && Powers(exp, 512) && Logs(log, 255)
    }

    constructor ()
      ensures Valid()
      ensures log[0] == 0
    {
      var e := new Byte[512](_ => 0);
      var l := new nat[256](_ => 0);
      GeneratePowers(e, l);
      ExtendPowers(e);
      exp := e[..];
      log := l[..];
    }

    lemma {:induction false} LogIsLog(b: Byte)
      requires Valid() && b != 0
      ensures (IndexRange(b); log[Index(b)] == F.Log(b))
    {
      IndexRange(b);
      assert LogAt(log, F.Log(b));
    }

    function Mul(a: Byte, b: Byte): (r: Byte)
      requires Valid()
      ensures r == F.Mul(a, b)
    {
      hide F.Mul, F.XPow, Index;
      IndexRange(a); IndexRange(b); F.ZeroMul(a); F.ZeroMul(b);
      if a == 0 || b == 0 then 0
      else
        LogIsLog(a); LogIsLog(b); F.XPowAdd(F.Log(a), F.Log(b)); F.XPowMod(F.Log(a) + F.Log(b));
        exp[(log[Index(a)] + log[Index(b)]) % 255]
    }

    // Division by zero yields zero.
    function Div(a: Byte, b: Byte): (r: Byte)
      requires Valid()
      ensures b == 0 ==> r == 0
      ensures b != 0 ==> F.Mul(r, b) == a
    {
      hide F.Mul, F.XPow, Index;
      IndexRange(a); IndexRange(b); F.ZeroMul(b);
      if b == 0 then 0
      else if a == 0 then 0
      else
        LogIsLog(a); LogIsLog(b); F.XPowMod(F.Log(a) + 255 - F.Log(b));
        F.XPowAdd(F.Log(a) + 255 - F.Log(b), F.Log(b)); F.XPowMod(F.Log(a) + 255);
        exp[(log[Index(a)] + 255 - log[Index(b)]) % 255]
    }

    function Inv(a: Byte): (r: Byte)
      requires Valid()
      ensures r == F.Inv(a)
    {
      hide F.XPow, Index;
      IndexRange(a);
      if a == 0 then 0
      else
        LogIsLog(a);
        exp[255 - log[Index(a)]]
    }

    // The n-fold product, except that 0 to the power 0 comes out as 0.
    function Pow(a: Byte, n: nat): (r: Byte)
      requires Valid()
      ensures r == if a == 0 then 0 else F.Power(a, n)
    {
      hide F.XPow, Index;
      IndexRange(a);
      if a == 0 then 0
      else
        LogIsLog(a); F.PowerByLog(a, n); F.XPowMod(F.Log(a) * n);
        exp[(log[Index(a)] * n) % 255]
    }
  }

  ghost predicate Powers(exp: seq<Byte>, n: nat)
    requires n <= |exp|
  {
    forall i :: 0 <= i < n ==> exp[i] == F.XPow(i)
  }

  ghost predicate Logs(log: seq<nat>, n: nat)
    requires |log| == 256
  {
    forall i :: 0 <= i < n ==> LogAt(log, i)
  }

  ghost predicate LogAt(log: seq<nat>, i: nat)
    requires |log| == 256
  {
    IndexRange(F.XPow(i));
    log[Index(F.XPow(i))] == i
  }

  // Generates the powers of x and their logarithms by repeated doubling of a 16-bit word.
  method GeneratePowers(exp: array<Byte>, log: array<nat>)
    requires exp.Length == 512 && log.Length == 256 && log[0] == 0
    modifies exp, log
    ensures Powers(exp[..], 255) && Logs(log[..], 255) && log[0] == 0
  {
    hide F.XPow, Index;
    F.XPowZero();
    var x: bv16 := 1;
    for i := 0 to 255
      invariant x < 0x100 && x as Byte == F.XPow(i)
      invariant Powers(exp[..], i) && Logs(log[..], i) && log[0] == 0
    {
      exp[i] := x as Byte;
      FreshPower(i);
      RecordedLog(log[..], i);
      log[Index(x as Byte)] := i;
      x := ShiftReduce(x, i);
    }
  }

  // Recording one more logarithm keeps those recorded before.
  lemma {:induction false} RecordedLog(log: seq<nat>, i: nat)
    requires |log| == 256 && i < 255 && Logs(log, i)
    ensures (IndexRange(F.XPow(i)); Logs(log[Index(F.XPow(i)) := i], i + 1))
  {
    hide F.XPow, Index;
    FreshPower(i);
    var after := log[Index(F.XPow(i)) := i];
    forall j | 0 <= j < i ensures LogAt(after, j) {
      assert LogAt(log, j);
      IndexRange(F.XPow(j));
    }
  }

  // The table is extended so that exponents up to 511 need no reduction.
  method ExtendPowers(exp: array<Byte>)
    requires exp.Length == 512 && Powers(exp[..], 255)
    modifies exp
    ensures Powers(exp[..], 512)
  {
    hide F.XPow;
    for i := 255 to 512
      invariant Powers(exp[..], i)
    {
      F.XPowMod(i);
      F.XPowMod(i - 255);
      exp[i] := exp[i - 255];
    }
  }

  // The loop body's shift and conditional reduction is one doubling.
  method ShiftReduce(x: bv16, ghost i: nat) returns (y: bv16)
    requires x < 0x100 && x as Byte == F.XPow(i)
    ensures y < 0x100 && y as Byte == F.XPow(i + 1)
  {
    y := x << 1;
    if y & 0x100 != 0 { y := y ^ 0x11D; }
  }

  lemma {:induction false} FreshPower(i: nat)
    requires i < 255
    ensures 0 < Index(F.XPow(i)) < 256
    ensures forall j :: 0 <= j < i ==> Index(F.XPow(j)) != Index(F.XPow(i))
  {
    hide F.XPow, Index;
    F.XPowNonzero(i);
    IndexRange(F.XPow(i));
    forall j | 0 <= j < i ensures Index(F.XPow(j)) != Index(F.XPow(i)) {
      if Index(F.XPow(j)) == Index(F.XPow(i)) {
        IndexInjective(F.XPow(j), F.XPow(i));
        F.XPowInjective(j, i);
      }
    }
  }
}
