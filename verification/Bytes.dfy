// uint8_t values and their exclusive or, which is the addition of GF(2^8).
module Bytes {
  type Byte = bv8

  function Add(a: Byte, b: Byte): Byte { a ^ b }

  lemma {:induction false} AddZero(a: Byte)
    ensures Add(a, 0) == a && Add(0, a) == a
  {}

  lemma {:induction false} AddSelf(a: Byte)
    ensures Add(a, a) == 0
  {}

  lemma {:induction false} AddCommutes(a: Byte, b: Byte)
    ensures Add(a, b) == Add(b, a)
  {}

  lemma {:induction false} AddAssociates(a: Byte, b: Byte, c: Byte)
    ensures Add(Add(a, b), c) == Add(a, Add(b, c))
  {}

  // Adding the same byte twice undoes it.
  lemma {:induction false} AddCancels(a: Byte, b: Byte)
    ensures Add(a, Add(a, b)) == b
  {}

  lemma {:induction false} AddIsZero(a: Byte, b: Byte)
    ensures Add(a, b) == 0 <==> a == b
  {}

  lemma {:induction false} AddInterchange(a: Byte, b: Byte, c: Byte, d: Byte)
    ensures Add(Add(a, b), Add(c, d)) == Add(Add(a, c), Add(b, d))
  {
    hide Add;
    AddAssociates(a, b, Add(c, d));
    AddAssociates(b, c, d);
    AddCommutes(b, c);
    AddAssociates(c, b, d);
    AddAssociates(a, c, Add(b, d));
  }

  // The value of a byte as an array index.
  function Index(b: Byte): nat { b as int }

  lemma {:induction false} IndexRange(b: Byte)
    ensures Index(b) < 256
    ensures Index(b) == 0 <==> b == 0
  {}

  lemma {:induction false} IndexInjective(a: Byte, b: Byte)
    requires Index(a) == Index(b)
    ensures a == b
  {}

  // static_cast<uint8_t>(n): the byte reached from 0 by n increments.
  function OfNat(n: nat): Byte {
    if n == 0 then 0 else OfNat(n - 1) + 1
  }

  lemma {:induction false} IndexSucc(b: Byte)
    ensures Index(b + 1) == if b == 255 then 0 else Index(b) + 1
  {}

  lemma {:induction false} MaxIndex(b: Byte)
    ensures Index(b) == 255 <==> b == 255
  {}

  lemma {:induction false} NextResidue(n: nat)
    ensures (n + 1) % 256 == if n % 256 == 255 then 0 else n % 256 + 1
  {}

  lemma {:induction false} IndexOfNat(n: nat)
    ensures Index(OfNat(n)) == n % 256
  {
    hide Index;
    IndexRange(0);
    if n > 0 {
      IndexOfNat(n - 1);
      IndexSucc(OfNat(n - 1));
      MaxIndex(OfNat(n - 1));
      NextResidue(n - 1);
    }
  }
}
