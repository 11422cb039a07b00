// The encoder and decoder loops of reed_solomon.cpp.
module ReedSolomonCodec {
  import opened Bytes
  import F = FieldLaws
  import opened GaloisTables
  import opened LinearAlgebra
  import opened GaussJordan
  import opened MatrixInversion
  import opened ErasureCode

  // vand[i][j] is i to the power j, with 0 to the power 0 taken as 1.
  method BuildVandermonde(gf: GaloisField, n: nat, k: nat) returns (vand: array2<Byte>)
    requires gf.Valid()
    ensures fresh(vand) && vand.Length0 == n && vand.Length1 == k
    ensures Rows(vand) == Vand(n, k)
    ensures forall i, j :: 0 <= i < n && 0 <= j < k ==> vand[i, j] == F.Power(OfNat(i), j)
  {
    hide F.Mul, gf.Valid, gf.Pow, F.Power;
    vand := new Byte[n, k]((_, _) => 0);
    for i := 0 to n
      invariant forall r, l :: 0 <= r < i && 0 <= l < k ==> vand[r, l] == F.Power(OfNat(r), l)
    {
      for j := 0 to k
        invariant forall r, l :: 0 <= r < i && 0 <= l < k ==> vand[r, l] == F.Power(OfNat(r), l)
        invariant forall l :: 0 <= l < j ==> vand[i, l] == F.Power(OfNat(i), l)
      {
        PowerEdges(i, j);
        if j == 0 {
          vand[i, j] := 1;
        } else if i == 0 {
          vand[i, j] := 0;
        } else {
          vand[i, j] := gf.Pow(OfNat(i), j);
        }
      }
    }
    SameRows(Rows(vand), Vand(n, k), n, k);
  }

  lemma {:induction false} PowerEdges(i: nat, j: nat)
    ensures F.Power(OfNat(i), 0) == 1
    ensures OfNat(0) == 0
    ensures j > 0 && OfNat(i) == 0 ==> F.Power(OfNat(i), j) == 0
  {
    if j > 0 { F.ZeroMul(F.Power(OfNat(i), j - 1)); }
  }

  method TopBlock(vand: array2<Byte>, k: nat) returns (topK: array2<Byte>)
    requires k <= vand.Length0 && vand.Length1 == k
    ensures fresh(topK) && topK.Length0 == topK.Length1 == k
    ensures Rows(topK) == Rows(vand)[..k]
  {
    topK := new Byte[k, k]((i, j) requires 0 <= i < k && 0 <= j < k reads vand => vand[i, j]);
    SameRows(Rows(topK), Rows(vand)[..k], k, k);
  }

  // Vandermonde matrix times the inverse of its top block.
  method BuildEncMatrix(gf: GaloisField, k: nat, m: nat) returns (enc: array2<Byte>)
    requires gf.Valid()
    ensures fresh(enc) && enc.Length0 == k + m && enc.Length1 == k
    ensures Rows(enc) == EncMatrix(k, m)
  {
    hide F.Mul, Add, gf.Valid, Inverse, Invertible, TwoSidedInverse, Rows, Vand;
    var n := k + m;
    var vand := BuildVandermonde(gf, n, k);
    var topK := TopBlock(vand, k);
    TopOfVand(n, k);
    var ignored := InvertMatrix(gf, topK);
    enc := Multiply(gf, vand, topK);
  }

  lemma {:induction false} TopOfVand(n: nat, k: nat)
    requires k <= n
    ensures Vand(n, k)[..k] == Vand(k, k)
  {}

  // The matrix product, entry by entry.
  method Multiply(gf: GaloisField, a: array2<Byte>, b: array2<Byte>) returns (c: array2<Byte>)
    requires gf.Valid() && a.Length1 == b.Length0
    ensures fresh(c) && c.Length0 == a.Length0 && c.Length1 == b.Length1
    ensures Rows(c) == MatMul(Rows(a), Rows(b), b.Length1)
  {
    hide Rows, Dot;
    var n, k := a.Length0, b.Length1;
    ghost var wa, wb := Rows(a), Rows(b);
    c := new Byte[n, k]((_, _) => 0);
    for i := 0 to n
      invariant Rows(a) == wa && Rows(b) == wb
      invariant forall r, l :: 0 <= r < i && 0 <= l < k ==> c[r, l] == Dot(wa[r], Column(wb, l))
    {
      for j := 0 to k
        invariant Rows(a) == wa && Rows(b) == wb
        invariant forall r, l :: 0 <= r < i && 0 <= l < k ==> c[r, l] == Dot(wa[r], Column(wb, l))
        invariant forall l :: 0 <= l < j ==> c[i, l] == Dot(wa[i], Column(wb, l))
      {
        c[i, j] := Entry(gf, a, b, i, j);
      }
    }
    SameRows(Rows(c), MatMul(wa, wb, k), n, k);
  }

  method Entry(gf: GaloisField, a: array2<Byte>, b: array2<Byte>, i: nat, j: nat) returns (val: Byte)
    requires gf.Valid() && a.Length1 == b.Length0 && i < a.Length0 && j < b.Length1
    ensures val == Dot(Rows(a)[i], Column(Rows(b), j))
  {
    hide F.Mul, Add;
    val := 0;
    for t := 0 to a.Length1
      invariant val == DotTo(Rows(a)[i], Column(Rows(b), j), t)
    {
      val := Add(val, gf.Mul(a[i, t], b[t, j]));
    }
  }

  // dst ^= coeff * src over the bytes that src has; a zero coefficient changes nothing.
  method Accumulate(gf: GaloisField, dst: Vector, coeff: Byte, src: Vector) returns (r: Vector)
    requires gf.Valid()
    ensures |r| == |dst|
    ensures forall b :: 0 <= b < |dst| ==> r[b] == Add(dst[b], F.Mul(coeff, ByteAt(src, b)))
  {
    hide F.Mul, Add;
    r := dst;
    forall b | 0 <= b < |dst| ensures Add(dst[b], 0) == dst[b] { AddZero(dst[b]); }
    forall x: Byte ensures F.Mul(0, x) == 0 && F.Mul(x, 0) == 0 { F.ZeroMul(x); }
    if coeff == 0 { return; }
    var len := if |src| < |dst| then |src| else |dst|;
    for b := 0 to len
      invariant |r| == |dst|
      invariant forall c :: 0 <= c < b ==> r[c] == Add(dst[c], F.Mul(coeff, src[c]))
      invariant forall c :: b <= c < |dst| ==> r[c] == dst[c]
    {
      r := r[b := Add(r[b], gf.Mul(coeff, src[b]))];
    }
  }

  method CountAvailable(present: seq<bool>) returns (available: nat)
    ensures available == Count(present, |present|)
  {
    available := 0;
    for i := 0 to |present|
      invariant available == Count(present, i)
    {
      if present[i] { available := available + 1; }
    }
  }

  method AllPresent(present: seq<bool>, k: nat) returns (all: bool)
    requires k <= |present|
    ensures all <==> forall i :: 0 <= i < k ==> present[i]
  {
    for i := 0 to k
      invariant forall j :: 0 <= j < i ==> present[j]
    {
      if !present[i] { return false; }
    }
    return true;
  }

  // The first k available shards.
  method FirstAvailable(present: seq<bool>, k: nat) returns (subIds: seq<nat>)
    ensures subIds == Picked(present, k, |present|)
  {
    subIds := [];
    var i := 0;
    while i < |present| && |subIds| < k
      invariant 0 <= i <= |present|
      invariant subIds == Picked(present, k, i)
    {
      if present[i] { subIds := subIds + [i]; }
      i := i + 1;
    }
    FullStaysFull(present, k, i, |present|);
  }

  lemma {:induction false} FullStaysFull(present: seq<bool>, k: nat, i: nat, n: nat)
    requires i <= n <= |present| && (i == n || |Picked(present, k, i)| >= k)
    ensures Picked(present, k, n) == Picked(present, k, i)
  {
    if i < n { FullStaysFull(present, k, i, n - 1); }
  }

  class ReedSolomon {
    const gf: GaloisField
    const dataShards: nat
    const parityShards: nat
    const encMatrix: Matrix

    ghost predicate Valid() {
      gf.Valid() && encMatrix == EncMatrix(dataShards, parityShards)
    }

    constructor (gf: GaloisField, k: nat, m: nat)
      requires gf.Valid()
      ensures Valid()
      ensures this.gf == gf && dataShards == k && parityShards == m
    {
      this.gf := gf;
      dataShards, parityShards := k, m;
      var e := BuildEncMatrix(gf, k, m);
      encMatrix := Rows(e);
    }

    // Parity shards of the data buffers; false when their number is not k.
    method Encode(data: seq<Vector>, shardSize: nat) returns (ok: bool, parityOut: seq<Vector>)
      requires Valid()
      ensures ok <==> |data| == dataShards
      ensures ok ==> parityOut == Parity(dataShards, parityShards, data, shardSize)
    {
      hide F.Mul, Add, EncMatrix;
      var k, m := dataShards, parityShards;
      parityOut := [];
      if |data| != k { return false, parityOut; }
      parityOut := seq(m, _ => Zero(shardSize));
      for p := 0 to m
        invariant |parityOut| == m
        invariant forall q :: 0 <= q < m ==> |parityOut[q]| == shardSize
        invariant forall q :: 0 <= q < p ==> parityOut[q] == CodeShard(k, m, data, shardSize, k + q)
        invariant forall q :: p <= q < m ==> parityOut[q] == Zero(shardSize)
      {
        ghost var row := EncMatrix(k, m)[k + p];
        var acc := parityOut[p];
        for j := 0 to k
          invariant |acc| == shardSize
          invariant forall b :: 0 <= b < shardSize ==> acc[b] == DotTo(row, Slice(data, b), j)
        {
          var coeff := encMatrix[k + p][j];
          assert coeff == row[j];
          acc := Accumulate(gf, acc, coeff, data[j]);
        }
        parityOut := parityOut[p := acc];
      }
      return true, parityOut;
    }

    // Rebuilds the missing data shards in place.
    method Decode(shards: array<Vector>, shardPresent: seq<bool>, shardSize: nat) returns (ok: bool)
      requires Valid()
      modifies shards
      ensures ok == Decoded(dataShards, parityShards, old(shards[..]), shardPresent, shardSize).Some?
      ensures shards[..] ==
        if ok then Decoded(dataShards, parityShards, old(shards[..]), shardPresent, shardSize).value
        else old(shards[..])
    {
      hide EncMatrix, gf.Valid, Inverse, Known, Dot, Invertible, TwoSidedInverse;
      var k, m := dataShards, parityShards;
      if shards.Length != k + m { return false; }
      if |shardPresent| != k + m { return false; }
      var available := CountAvailable(shardPresent);
      if available < k { return false; }
      var allDataPresent := AllPresent(shardPresent, k);
      if allDataPresent { return true; }
      var subIds := FirstAvailable(shardPresent, k);
      PickedIsChoice(shardPresent, k, k + m);
      var subMatrix := CopyRows(subIds);
      var invertible := InvertMatrix(gf, subMatrix);
      if !invertible { return false; }
      RecoverMissing(shards, shardPresent, shardSize, subIds, subMatrix);
      return true;
    }

    // The rows of the encoding matrix that belong to the picked shards.
    method CopyRows(subIds: seq<nat>) returns (sub: array2<Byte>)
      requires Valid()
      requires |subIds| == dataShards && forall j :: 0 <= j < |subIds| ==> subIds[j] < dataShards + parityShards
      ensures fresh(sub) && sub.Length0 == sub.Length1 == dataShards
      ensures Rows(sub) == SubMatrix(EncMatrix(dataShards, parityShards), subIds, dataShards)
    {
      hide EncMatrix;
      var k := dataShards;
      sub := new Byte[k, k]((_, _) => 0);
      for i := 0 to k
        invariant forall r, l :: 0 <= r < i && 0 <= l < k ==> sub[r, l] == encMatrix[subIds[r]][l]
      {
        for j := 0 to k
          invariant forall r, l :: 0 <= r < i && 0 <= l < k ==> sub[r, l] == encMatrix[subIds[r]][l]
          invariant forall l :: 0 <= l < j ==> sub[i, l] == encMatrix[subIds[i]][l]
        {
          sub[i, j] := encMatrix[subIds[i]][j];
        }
      }
      SameRows(Rows(sub), SubMatrix(encMatrix, subIds, k), k, k);
    }

    // Each missing data shard becomes the combination of the picked shards given by its row of the inverse.
    method RecoverMissing(shards: array<Vector>, present: seq<bool>, shardSize: nat, subIds: seq<nat>,
                          inverse: array2<Byte>)
      requires Valid() && shards.Length == |present| == dataShards + parityShards
      requires Count(present, |present|) >= dataShards && subIds == Picked(present, dataShards, |present|)
      requires inverse.Length0 == inverse.Length1 == dataShards
      modifies shards
      ensures forall i :: 0 <= i < shards.Length ==>
        shards[i] ==
          if i >= dataShards || present[i] then old(shards[i])
          else Rebuilt(dataShards, Rows(inverse), old(shards[..]), present, shardSize, i)
    {
      hide EncMatrix, gf.Valid, Rebuilt, Rows;
      PickedIsChoice(present, dataShards, |present|);
      ghost var before, inv := shards[..], Rows(inverse);
      for i := 0 to dataShards
        invariant Rows(inverse) == inv
        invariant forall l :: 0 <= l < shards.Length ==>
          shards[l] ==
            if l >= i || present[l] then before[l] else Rebuilt(dataShards, inv, before, present, shardSize, l)
      {
        if present[i] { continue; }
        shards[i] := RebuildShard(shards, present, shardSize, subIds, inverse, i, before);
      }
    }

    // Accumulates one missing shard; every shard it reads is a present one.
    method RebuildShard(shards: array<Vector>, present: seq<bool>, shardSize: nat, subIds: seq<nat>,
                        inverse: array2<Byte>, i: nat, ghost before: seq<Vector>) returns (shard: Vector)
      requires Valid() && shards.Length == |present| == |before| == dataShards + parityShards
      requires Count(present, |present|) >= dataShards && subIds == Picked(present, dataShards, |present|)
      requires inverse.Length0 == inverse.Length1 == dataShards && i < dataShards && !present[i]
      requires forall l :: 0 <= l < shards.Length && present[l] ==> shards[l] == before[l]
      ensures shard == Rebuilt(dataShards, Rows(inverse), before, present, shardSize, i)
    {
      hide F.Mul, Add, EncMatrix;
      var k := dataShards;
      ghost var row := Rows(inverse)[i];
      PickedIsChoice(present, k, |present|);
      shard := Zero(shardSize);
      for j := 0 to k
        invariant |shard| == shardSize
        invariant forall b :: 0 <= b < shardSize ==> shard[b] == DotTo(row, Known(k, before, present, b), j)
      {
        var coeff, src := inverse[i, j], shards[subIds[j]];
        assert coeff == row[j] && src == before[subIds[j]];
        shard := Accumulate(gf, shard, coeff, src);
      }
    }
  }
}
