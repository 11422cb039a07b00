// The systematic erasure code of reed_solomon.cpp, as functions on shard values, and its theorems.
module ErasureCode {
  import opened Wrappers
  import opened Bytes
  import opened FieldLaws
  import opened LinearAlgebra
  import opened GaussJordan
  import opened Vandermonde

  // ----- the encoding matrix

  // Row i evaluates at the point static_cast<uint8_t>(i).
  function Points(n: nat): (p: seq<Byte>)
    ensures |p| == n && forall i :: 0 <= i < n ==> p[i] == OfNat(i)
  {
    seq(n, i requires 0 <= i < n => OfNat(i))
  }

  function Vand(n: nat, k: nat): (v: Matrix)
    ensures IsMatrix(v, n, k)
  {
    EvaluationRows(Points(n), k)
  }

  // The top block after the unchecked inversion, which leaves a singular block as it was.
  ghost function TopAfterInversion(k: nat): (t: Matrix)
    ensures IsMatrix(t, k, k)
  {
    match Inverse(Vand(k, k))
    case Some(b) => b
    case None => Vand(k, k)
  }

  ghost function EncMatrix(k: nat, m: nat): (e: Matrix)
    ensures IsMatrix(e, k + m, k)
  {
    MatMul(Vand(k + m, k), TopAfterInversion(k), k)
  }

  // ----- which rows are independent

  ghost predicate RowChoice(ids: seq<nat>, k: nat, n: nat) {
    |ids| == k && Distinct(ids) && forall j :: 0 <= j < k ==> ids[j] < n
  }

  function SubMatrix(e: Matrix, ids: seq<nat>, cols: nat): (s: Matrix)
    requires IsMatrix(e, |e|, cols) && forall j :: 0 <= j < |ids| ==> ids[j] < |e|
    ensures IsMatrix(s, |ids|, cols) && forall j :: 0 <= j < |ids| ==> s[j] == e[ids[j]]
  {
    seq(|ids|, j requires 0 <= j < |ids| => e[ids[j]])
  }

  lemma {:induction false} DistinctPoints(ids: seq<nat>)
    requires Distinct(ids) && forall j :: 0 <= j < |ids| ==> ids[j] < 256
    ensures Distinct(seq(|ids|, j requires 0 <= j < |ids| => OfNat(ids[j])))
  {
    forall i, j | 0 <= i < j < |ids| ensures OfNat(ids[i]) != OfNat(ids[j]) {
      IndexOfNat(ids[i]);
      IndexOfNat(ids[j]);
    }
  }

  lemma {:induction false} PointsAreDistinct(n: nat)
    requires n <= 256
    ensures Distinct(Points(n))
  {
    hide Index, OfNat;
    forall i, j | 0 <= i < j < n ensures Points(n)[i] != Points(n)[j] {
      IndexOfNat(i);
      IndexOfNat(j);
    }
  }

  lemma {:induction false} TopIsInvertible(k: nat)
    requires k <= 256
    ensures Inverse(Vand(k, k)).Some?
  {
    hide Inverse, Invertible, Injective, EvaluationRows, Points, Distinct;
    PointsAreDistinct(k);
    EvaluationIsInjective(Points(k));
    InverseExistsIff(Vand(k, k));
  }

  // Row i of a Vandermonde matrix evaluates at the byte i.
  lemma {:induction false} VandEvaluates(n: nat, p: Vector, i: nat)
    requires i < n
    ensures MatVec(Vand(n, |p|), p)[i] == Eval(p, OfNat(i))
  {
    hide Eval, OfNat, MatVec, EvaluationRows;
    RowEvaluates(Points(n), p, i);
  }

  // The encoding matrix maps the values of a polynomial at 0, 1, .., k - 1 to its values at 0, 1, .., k + m - 1.
  lemma {:induction false} EncodingEvaluates(k: nat, m: nat, p: Vector)
    requires k <= 256 && |p| == k
    ensures MatVec(EncMatrix(k, m), MatVec(Vand(k, k), p)) == MatVec(Vand(k + m, k), p)
    ensures forall i :: 0 <= i < k ==> MatVec(Vand(k, k), p)[i] == Eval(p, OfNat(i))
    ensures forall i :: 0 <= i < k + m ==> MatVec(EncMatrix(k, m), MatVec(Vand(k, k), p))[i] == Eval(p, OfNat(i))
  {
    hide Inverse, MatMul, Vand, Eval, OfNat;
    var top, t := Vand(k, k), TopAfterInversion(k);
    TopIsInvertible(k);
    var y := MatVec(top, p);
    MatMulVec(Vand(k + m, k), t, y);
    InverseSolves(top, p, y);
    forall i | 0 <= i < k ensures y[i] == Eval(p, OfNat(i)) { VandEvaluates(k, p, i); }
    forall i | 0 <= i < k + m ensures MatVec(Vand(k + m, k), p)[i] == Eval(p, OfNat(i)) { VandEvaluates(k + m, p, i); }
  }

  // The code is systematic: data shards are transmitted as they are.
  lemma {:induction false} TopIsIdentity(k: nat, m: nat)
    requires k <= 256
    ensures EncMatrix(k, m)[..k] == Identity(k)
  {
    hide Inverse, TwoSidedInverse;
    TopIsInvertible(k);
    InverseIsTwoSided(Vand(k, k));
    var e, t := EncMatrix(k, m), TopAfterInversion(k);
    InverseOnTheRight(Vand(k, k), t);
    forall i | 0 <= i < k ensures e[i] == Identity(k)[i] {
      assert Vand(k + m, k)[i] == Vand(k, k)[i];
      forall j | 0 <= j < k ensures e[i][j] == MatMul(Vand(k, k), t, k)[i][j] {}
      assert e[i] == MatMul(Vand(k, k), t, k)[i];
    }
  }

  lemma {:induction false} InverseOnTheRight(a: Matrix, b: Matrix)
    requires IsMatrix(a, |a|, |a|) && TwoSidedInverse(a, b)
    ensures IsMatrix(b, |a|, |a|) && MatMul(a, b, |a|) == Identity(|a|)
  {}

  // Rows at pairwise different points form an invertible matrix.
  lemma {:induction false} RowsAtDistinctPoints(k: nat, m: nat, ids: seq<nat>)
    requires k <= 256 && RowChoice(ids, k, k + m)
    requires Distinct(seq(k, j requires 0 <= j < k => OfNat(ids[j])))
    ensures Invertible(SubMatrix(EncMatrix(k, m), ids, k))
  {
    hide Inverse, MatMul, Dot;
    var s := SubMatrix(EncMatrix(k, m), ids, k);
    var t := TopAfterInversion(k);
    var points := seq(k, j requires 0 <= j < k => OfNat(ids[j]));
    var v := EvaluationRows(points, k);
    TopIsInvertible(k);
    EvaluationIsInjective(points);
    forall y: Vector | |y| == k && MatVec(s, y) == Zero(k) ensures y == Zero(k) {
      // y is the top block applied to x; s y evaluates x at the chosen points
      var x := MatVec(t, y);
      InverseSolves(Vand(k, k), x, y);
      EncodingEvaluates(k, m, x);
      forall j | 0 <= j < k ensures MatVec(v, x)[j] == 0 {
        assert MatVec(s, y)[j] == MatVec(EncMatrix(k, m), y)[ids[j]];
        assert Vand(k + m, k)[ids[j]] == v[j];
      }
      assert x == Zero(k);
      MatVecZero(Vand(k, k), k);
    }
    InverseExistsIff(s);
  }

  ghost predicate AnyKRowsInvertible(k: nat, m: nat) {
    forall ids: seq<nat> :: RowChoice(ids, k, k + m) ==> Invertible(SubMatrix(EncMatrix(k, m), ids, k))
  }

  lemma {:induction false} EqualRowsAreSingular(a: Matrix, i: nat, j: nat)
    requires IsMatrix(a, |a|, |a|) && i < |a| && j < |a| && i != j && a[i] == a[j]
    ensures !Invertible(a)
  {
    hide Dot;
    var n := |a|;
    assert Identity(n)[i][i] != Identity(n)[j][i];
    forall b: Matrix ensures !TwoSidedInverse(a, b) {
      if IsMatrix(b, n, n) { assert MatMul(a, b, n)[i][i] == MatMul(a, b, n)[j][i]; }
    }
  }

  // With more than 256 shards two of the points coincide.
  lemma {:induction false} PointsWrapAround(k: nat, m: nat)
    requires k + m > 256
    ensures EncMatrix(k, m)[0] == EncMatrix(k, m)[256]
  {
    hide TopAfterInversion, Dot;
    IndexOfNat(0);
    IndexOfNat(256);
    IndexInjective(OfNat(0), OfNat(256));
    assert Vand(k + m, k)[0] == Vand(k + m, k)[256];
    var e := EncMatrix(k, m);
    assert forall j :: 0 <= j < k ==> e[0][j] == e[256][j];
  }

  // Any k shards suffice exactly when the points do not wrap around, apart from the repetition code k = 1.
  lemma {:induction false} AnyKRowsInvertibleIff(k: nat, m: nat)
    ensures AnyKRowsInvertible(k, m) <==> k <= 1 || k + m <= 256
  {
    hide Invertible, EncMatrix;
    if k <= 1 || k + m <= 256 {
      forall ids: seq<nat> | RowChoice(ids, k, k + m)
        ensures Invertible(SubMatrix(EncMatrix(k, m), ids, k))
      {
        if k > 1 { DistinctPoints(ids); }
        RowsAtDistinctPoints(k, m, ids);
      }
    } else {
      PointsWrapAround(k, m);
      var ids: seq<nat> :=
        if k <= 256 then [256] + seq(k - 1, i requires i >= 0 => i) else seq(k, i requires i >= 0 => i);
      var i, j := if k <= 256 then 1 else 0, if k <= 256 then 0 else 256;
      assert ids[i] == 0 && ids[j] == 256;
      assert RowChoice(ids, k, k + m);
      EqualRowsAreSingular(SubMatrix(EncMatrix(k, m), ids, k), i, j);
    }
  }

  // ----- shards

  // Byte b of a shard, read with zero padding.
  function ByteAt(s: Vector, b: nat): Byte {
    if b < |s| then s[b] else 0
  }

  // Byte b of every shard.
  function Slice(shards: seq<Vector>, b: nat): (c: Vector)
    ensures |c| == |shards| && forall i :: 0 <= i < |shards| ==> c[i] == ByteAt(shards[i], b)
  {
    seq(|shards|, i requires 0 <= i < |shards| => ByteAt(shards[i], b))
  }

  // The first size bytes, zero padded.
  function Padded(s: Vector, size: nat): (t: Vector)
    ensures |t| == size && forall b :: 0 <= b < size ==> t[b] == ByteAt(s, b)
  {
    seq(size, b requires 0 <= b < size => ByteAt(s, b))
  }

  // Shard i of the codeword of the data shards.
  ghost function CodeShard(k: nat, m: nat, data: seq<Vector>, size: nat, i: nat): (s: Vector)
    requires |data| == k && i < k + m
    ensures |s| == size && forall b :: 0 <= b < size ==> s[b] == Dot(EncMatrix(k, m)[i], Slice(data, b))
  {
    seq(size, b requires 0 <= b < size => Dot(EncMatrix(k, m)[i], Slice(data, b)))
  }

  ghost function Parity(k: nat, m: nat, data: seq<Vector>, size: nat): (p: seq<Vector>)
    requires |data| == k
    ensures |p| == m && forall i :: 0 <= i < m ==> p[i] == CodeShard(k, m, data, size, k + i)
  {
    seq(m, i requires 0 <= i < m => CodeShard(k, m, data, size, k + i))
  }

  // ----- shards are values of a polynomial

  // When a polynomial takes the values of the data shards at 0, 1, .., k - 1, shard i of the codeword is its
  // value at i, parity included.
  lemma {:induction false} ShardIsValue(k: nat, m: nat, data: seq<Vector>, size: nat, b: nat, p: Vector, i: nat)
    requires k <= 256 && |data| == |p| == k && b < size && i < k + m
    requires forall j :: 0 <= j < k ==> Eval(p, OfNat(j)) == ByteAt(data[j], b)
    ensures CodeShard(k, m, data, size, i)[b] == Eval(p, OfNat(i))
  {
    hide Eval, OfNat, Vand, EncMatrix, ByteAt;
    EncodingEvaluates(k, m, p);
    assert MatVec(Vand(k, k), p) == Slice(data, b);
  }

  ghost predicate AreValues(k: nat, m: nat, data: seq<Vector>, size: nat, b: nat, p: Vector)
    requires |data| == k && b < size
  {
    forall i :: 0 <= i < k + m ==> CodeShard(k, m, data, size, i)[b] == Eval(p, OfNat(i))
  }

  // There is such a polynomial for every byte of every data, so a codeword always consists of values.
  lemma {:induction false} ShardsAreValues(k: nat, m: nat, data: seq<Vector>, size: nat, b: nat)
    requires k <= 256 && |data| == k && b < size
    ensures exists p: Vector :: |p| == k && AreValues(k, m, data, size, b, p)
  {
    hide Eval, OfNat, Vand, EncMatrix, ByteAt, Inverse, CodeShard;
    TopIsInvertible(k);
    var p := MatVec(Inverse(Vand(k, k)).value, Slice(data, b));
    InverseSolves(Vand(k, k), p, Slice(data, b));
    forall j | 0 <= j < k ensures Eval(p, OfNat(j)) == ByteAt(data[j], b) { VandEvaluates(k, p, j); }
    forall i | 0 <= i < k + m ensures CodeShard(k, m, data, size, i)[b] == Eval(p, OfNat(i)) {
      ShardIsValue(k, m, data, size, b, p, i);
    }
  }

  // Two data shards: byte b of shard i lies on the line through their bytes.
  lemma {:induction false} TwoShards(m: nat, data: seq<Vector>, size: nat, b: nat, i: nat)
    requires |data| == 2 && b < size && i < 2 + m
    ensures var c, d := ByteAt(data[0], b), ByteAt(data[1], b);
      CodeShard(2, m, data, size, i)[b] == Add(c, Mul(OfNat(i), Add(c, d)))
  {
    hide Add, Mul, ByteAt, CodeShard, OfNat;
    var c, d := ByteAt(data[0], b), ByteAt(data[1], b);
    var p := [c, Add(c, d)];
    forall a: Byte ensures Eval(p, a) == Add(c, Mul(a, Add(c, d))) { LineAt(c, Add(c, d), a); }
    FirstBytes();
    OneMul(Add(c, d));
    ZeroMul(Add(c, d));
    AddZero(c);
    AddCancels(c, d);
    ShardIsValue(2, m, data, size, b, p, i);
  }

  lemma {:induction false} LineAt(c: Byte, d: Byte, a: Byte)
    ensures Eval([c, d], a) == Add(c, Mul(a, d))
  {
    hide Add, Mul;
    assert [c, d][1..] == [d];
    ZeroMul(a);
    AddZero(d);
    assert Eval([d], a) == d;
  }

  lemma {:induction false} FirstBytes()
    ensures OfNat(0) == 0 && OfNat(1) == 1 && OfNat(2) == 2
  {}

  // Over [1] and [2] the parity shard is [7].
  lemma {:induction false} ParityOfOneAndTwo()
    ensures Parity(2, 1, [[1], [2]], 1) == [[7]]
  {
    hide CodeShard;
    FirstBytes();
    TwoShards(1, [[1], [2]], 1, 0, 2);
    assert Mul(2, 3) == 6;
    assert CodeShard(2, 1, [[1], [2]], 1, 2) == [7];
  }

  lemma {:induction false} DataShards(k: nat, m: nat, data: seq<Vector>, size: nat, i: nat)
    requires |data| == k <= 256 && i < k
    ensures CodeShard(k, m, data, size, i) == Padded(data[i], size)
  {
    TopIsIdentity(k, m);
    var e := EncMatrix(k, m);
    assert e[i] == e[..k][i] == Unit(k, i);
    hide EncMatrix;
    forall b | 0 <= b < size ensures CodeShard(k, m, data, size, i)[b] == ByteAt(data[i], b) {
      DotUnit(Slice(data, b), i);
    }
  }

  // ----- choosing shards

  function Count(present: seq<bool>, n: nat): (c: nat)
    requires n <= |present|
    ensures c <= n
  {
    if n == 0 then 0 else Count(present, n - 1) + (if present[n - 1] then 1 else 0)
  }

  // The first k present indices below n.
  function Picked(present: seq<bool>, k: nat, n: nat): (ids: seq<nat>)
    requires n <= |present|
  {
    if n == 0 then []
    else
      var ids := Picked(present, k, n - 1);
      if |ids| < k && present[n - 1] then ids + [n - 1] else ids
  }

  lemma {:induction false} PickedIsChoice(present: seq<bool>, k: nat, n: nat)
    requires n <= |present|
    ensures var ids := Picked(present, k, n);
      && |ids| == (if Count(present, n) < k then Count(present, n) else k)
      && Distinct(ids)
      && (forall j :: 0 <= j < |ids| ==> ids[j] < n && present[ids[j]])
  {
    if n > 0 { PickedIsChoice(present, k, n - 1); }
  }

  // A present index below k is always among the picked ones.
  lemma {:induction false} PickedHasData(present: seq<bool>, k: nat, n: nat, i: nat) returns (j: nat)
    requires i < n <= |present| && i < k && present[i]
    ensures j < |Picked(present, k, n)| && Picked(present, k, n)[j] == i
  {
    if i == n - 1 {
      PickedIsChoice(present, k, n - 1);
      j := |Picked(present, k, n)| - 1;
    } else {
      j := PickedHasData(present, k, n - 1, i);
    }
  }

  // ----- decoding

  // The system that decoding solves: the rows of the picked shards.
  ghost function Chosen(k: nat, m: nat, present: seq<bool>): (s: Matrix)
    requires |present| == k + m && Count(present, k + m) >= k
    ensures IsMatrix(s, k, k)
  {
    PickedIsChoice(present, k, k + m);
    SubMatrix(EncMatrix(k, m), Picked(present, k, k + m), k)
  }

  // Byte b of the picked shards.
  function Known(k: nat, shards: seq<Vector>, present: seq<bool>, b: nat): (y: Vector)
    requires |shards| == |present| && Count(present, |present|) >= k
    ensures |y| == k
  {
    PickedIsChoice(present, k, |present|);
    var ids := Picked(present, k, |present|);
    seq(k, j requires 0 <= j < k => ByteAt(shards[ids[j]], b))
  }

  // Missing shard i, rebuilt from the picked shards by row i of the inverse.
  ghost function Rebuilt(k: nat, inv: Matrix, shards: seq<Vector>, present: seq<bool>, size: nat, i: nat): (s: Vector)
    requires |shards| == |present| && Count(present, |present|) >= k && IsMatrix(inv, k, k) && i < k
    ensures |s| == size && forall b :: 0 <= b < size ==> s[b] == Dot(inv[i], Known(k, shards, present, b))
  {
    seq(size, b requires 0 <= b < size => Dot(inv[i], Known(k, shards, present, b)))
  }

  // All shards with the missing data shards rebuilt.
  ghost function Recovered(k: nat, inv: Matrix, shards: seq<Vector>, present: seq<bool>, size: nat): (r: seq<Vector>)
    requires |shards| == |present| && Count(present, |present|) >= k && IsMatrix(inv, k, k)
    ensures |r| == |shards|
    ensures forall i :: 0 <= i < |r| ==>
      r[i] == if i >= k || present[i] then shards[i] else Rebuilt(k, inv, shards, present, size, i)
  {
    seq(|shards|, i requires 0 <= i < |shards| =>
      if i >= k || present[i] then shards[i] else Rebuilt(k, inv, shards, present, size, i))
  }

  // The shards after a successful decode, None when decode reports failure.
  ghost function Decoded(k: nat, m: nat, shards: seq<Vector>, present: seq<bool>, size: nat): (r: Option<seq<Vector>>)
    ensures r.Some? ==> |r.value| == |shards| == k + m
  {
    if |shards| != k + m || |present| != k + m || Count(present, k + m) < k then None
    else if forall i :: 0 <= i < k ==> present[i] then Some(shards)
    else
      match Inverse(Chosen(k, m, present))
      case None => None
      case Some(inv) => Some(Recovered(k, inv, shards, present, size))
  }

  // Decoding copies present data shards and builds missing ones of the full size.
  lemma {:induction false} DecodedShards(k: nat, m: nat, shards: seq<Vector>, present: seq<bool>, size: nat,
                                         out: seq<Vector>)
    requires Decoded(k, m, shards, present, size) == Some(out)
    ensures |out| == |shards| == |present| == k + m
    ensures forall i :: 0 <= i < k ==> if present[i] then out[i] == shards[i] else |out[i]| == size
  {
    hide Inverse, Chosen, Dot, Known, Count;
  }

  ghost predicate Sized(k: nat, m: nat, shards: seq<Vector>, present: seq<bool>) {
    |shards| == |present| == k + m
  }

  ghost predicate WithinField(k: nat, m: nat) {
    k <= 1 || k + m <= 256
  }

  lemma {:induction false} ChosenIsInvertible(k: nat, m: nat, present: seq<bool>)
    requires WithinField(k, m) && |present| == k + m && Count(present, k + m) >= k
    ensures Inverse(Chosen(k, m, present)).Some?
  {
    hide Inverse, Invertible, EncMatrix;
    PickedIsChoice(present, k, k + m);
    AnyKRowsInvertibleIff(k, m);
    InverseExistsIff(Chosen(k, m, present));
  }

  // On correctly sized input, decoding succeeds exactly when k shards are present.
  lemma {:induction false} DecodeSucceedsIff(k: nat, m: nat, shards: seq<Vector>, present: seq<bool>, size: nat)
    requires WithinField(k, m)
    ensures Decoded(k, m, shards, present, size).Some? <==>
      Sized(k, m, shards, present) && Count(present, k + m) >= k
  {
    hide Inverse, Chosen;
    if Sized(k, m, shards, present) && Count(present, k + m) >= k { ChosenIsInvertible(k, m, present); }
  }

  // The picked shards are those of the codeword of data.
  ghost predicate PickedMatch(k: nat, m: nat, shards: seq<Vector>, present: seq<bool>, size: nat, data: seq<Vector>)
    requires Sized(k, m, shards, present) && |data| == k
  {
    PickedIsChoice(present, k, k + m);
    forall i, b :: i in Picked(present, k, k + m) && 0 <= b < size ==>
      ByteAt(shards[i], b) == CodeShard(k, m, data, size, i)[b]
  }

  // The first k shards are the data, up to zero padding and truncation to size bytes.
  ghost predicate SameData(k: nat, out: seq<Vector>, data: seq<Vector>, size: nat)
    requires |out| >= k && |data| >= k
  {
    forall i, b :: 0 <= i < k && 0 <= b < size ==> ByteAt(out[i], b) == ByteAt(data[i], b)
  }

  // Among the chosen rows, that of a present data shard is a unit row.
  lemma {:induction false} PresentRow(k: nat, m: nat, shards: seq<Vector>, present: seq<bool>, b: nat, i: nat)
    returns (j: nat)
    requires Sized(k, m, shards, present) && k <= 256 && Count(present, k + m) >= k
    requires i < k && present[i]
    ensures j < k && Chosen(k, m, present)[j] == Unit(k, i) && Known(k, shards, present, b)[j] == ByteAt(shards[i], b)
  {
    hide EncMatrix, Vand;
    PickedIsChoice(present, k, k + m);
    j := PickedHasData(present, k, k + m, i);
    TopIsIdentity(k, m);
    assert EncMatrix(k, m)[i] == EncMatrix(k, m)[..k][i];
  }

  // A data shard among the picked ones fixes one coordinate of any solution.
  lemma {:induction false} PresentCoordinate(k: nat, m: nat, shards: seq<Vector>, present: seq<bool>, b: nat,
                                             d: Vector, i: nat)
    requires Sized(k, m, shards, present) && k <= 256 && Count(present, k + m) >= k
    requires |d| == k && MatVec(Chosen(k, m, present), d) == Known(k, shards, present, b)
    requires i < k && present[i]
    ensures d[i] == ByteAt(shards[i], b)
  {
    hide Dot, EncMatrix, Chosen, Known;
    var j := PresentRow(k, m, shards, present, b, i);
    DotUnit(d, i);
    assert MatVec(Chosen(k, m, present), d)[j] == Known(k, shards, present, b)[j];
  }

  // With an invertible system both successful branches return the same shards.
  lemma {:induction false} DecodedIsRecovered(k: nat, m: nat, shards: seq<Vector>, present: seq<bool>, size: nat)
    requires WithinField(k, m) && Sized(k, m, shards, present) && Count(present, k + m) >= k
    ensures Inverse(Chosen(k, m, present)).Some?
    ensures Decoded(k, m, shards, present, size) ==
      Some(Recovered(k, Inverse(Chosen(k, m, present)).value, shards, present, size))
  {
    hide Inverse, Chosen, Rebuilt;
    ChosenIsInvertible(k, m, present);
    var r := Recovered(k, Inverse(Chosen(k, m, present)).value, shards, present, size);
    if forall i :: 0 <= i < k ==> present[i] { assert r == shards; }
  }

  // Whatever the shards hold, the recovered data solves the system of the picked shards.
  lemma {:induction false} RecoveredSolves(k: nat, m: nat, shards: seq<Vector>, present: seq<bool>, size: nat,
                                           inv: Matrix, b: nat)
    requires Sized(k, m, shards, present) && k <= 256 && Count(present, k + m) >= k
    requires Inverse(Chosen(k, m, present)) == Some(inv) && b < size
    ensures MatVec(Chosen(k, m, present), Slice(Recovered(k, inv, shards, present, size)[..k], b))
      == Known(k, shards, present, b)
  {
    hide Dot, Inverse, Chosen, Known;
    var out := Recovered(k, inv, shards, present, size);
    var y := Known(k, shards, present, b);
    var d := MatVec(inv, y);
    InverseSolves(Chosen(k, m, present), d, y);
    forall i | 0 <= i < k ensures Slice(out[..k], b)[i] == d[i] {
      if present[i] { PresentCoordinate(k, m, shards, present, b, d, i); }
    }
    assert Slice(out[..k], b) == d;
  }

  lemma {:induction false} MatchIsSystem(k: nat, m: nat, shards: seq<Vector>, present: seq<bool>, size: nat,
                                         data: seq<Vector>)
    requires Sized(k, m, shards, present) && |data| == k && Count(present, k + m) >= k
    ensures PickedMatch(k, m, shards, present, size, data) <==>
      forall b :: 0 <= b < size ==> Known(k, shards, present, b) == MatVec(Chosen(k, m, present), Slice(data, b))
  {
    hide Dot, EncMatrix;
    PickedIsChoice(present, k, k + m);
    var ids := Picked(present, k, k + m);
    forall j, b | 0 <= j < k && 0 <= b < size
      ensures CodeShard(k, m, data, size, ids[j])[b] == MatVec(Chosen(k, m, present), Slice(data, b))[j]
    {}
    if forall b :: 0 <= b < size ==> Known(k, shards, present, b) == MatVec(Chosen(k, m, present), Slice(data, b)) {
      forall i, b | i in ids && 0 <= b < size ensures ByteAt(shards[i], b) == CodeShard(k, m, data, size, i)[b] {
        var j :| 0 <= j < k && ids[j] == i;
        assert Known(k, shards, present, b)[j] == ByteAt(shards[i], b);
      }
    }
    if PickedMatch(k, m, shards, present, size, data) {
      forall b | 0 <= b < size ensures Known(k, shards, present, b) == MatVec(Chosen(k, m, present), Slice(data, b)) {
        forall j | 0 <= j < k
          ensures Known(k, shards, present, b)[j] == MatVec(Chosen(k, m, present), Slice(data, b))[j]
        {
          assert ids[j] in ids;
        }
      }
    }
  }

  // A successful decode yields the data exactly when the picked shards are those of its codeword.
  lemma {:induction false} DecodeIsExact(k: nat, m: nat, shards: seq<Vector>, present: seq<bool>, size: nat,
                                         data: seq<Vector>)
    requires WithinField(k, m) && Decoded(k, m, shards, present, size).Some? && |data| == k
    ensures SameData(k, Decoded(k, m, shards, present, size).value, data, size) <==>
      PickedMatch(k, m, shards, present, size, data)
  {
    hide Dot, Inverse, Chosen, Known, PickedMatch, Decoded, Recovered;
    DecodeSucceedsIff(k, m, shards, present, size);
    DecodedIsRecovered(k, m, shards, present, size);
    MatchIsSystem(k, m, shards, present, size, data);
    var out := Decoded(k, m, shards, present, size).value;
    var inv := Inverse(Chosen(k, m, present)).value;
    forall b | 0 <= b < size
      ensures Known(k, shards, present, b) == MatVec(Chosen(k, m, present), Slice(data, b)) <==>
        Slice(out[..k], b) == Slice(data, b)
    {
      RecoveredSolves(k, m, shards, present, size, inv, b);
      InverseSolves(Chosen(k, m, present), Slice(data, b), Known(k, shards, present, b));
      InverseSolves(Chosen(k, m, present), Slice(out[..k], b), Known(k, shards, present, b));
    }
    SameDataBySlices(k, out, data, size);
  }

  lemma {:induction false} SameDataBySlices(k: nat, out: seq<Vector>, data: seq<Vector>, size: nat)
    requires |out| >= k && |data| == k
    ensures SameData(k, out, data, size) <==> forall b :: 0 <= b < size ==> Slice(out[..k], b) == Slice(data, b)
  {
    if forall b :: 0 <= b < size ==> Slice(out[..k], b) == Slice(data, b) {
      forall i, b | 0 <= i < k && 0 <= b < size ensures ByteAt(out[i], b) == ByteAt(data[i], b) {
        assert Slice(out[..k], b)[i] == Slice(data, b)[i];
      }
    }
  }

  lemma {:induction false} PresentShardsMatch(k: nat, m: nat, shards: seq<Vector>, present: seq<bool>, size: nat,
                                              data: seq<Vector>)
    requires |data| == k && Sized(k, m, shards, present)
    requires forall i :: 0 <= i < k + m && present[i] ==> Padded(shards[i], size) == CodeShard(k, m, data, size, i)
    ensures PickedMatch(k, m, shards, present, size, data)
  {
    hide CodeShard;
    PickedIsChoice(present, k, k + m);
    forall i, b | i in Picked(present, k, k + m) && 0 <= b < size
      ensures ByteAt(shards[i], b) == CodeShard(k, m, data, size, i)[b]
    {
      assert Padded(shards[i], size)[b] == ByteAt(shards[i], b);
    }
  }

  // Any k shards of a codeword recover the data; the other shards are left as they were.
  lemma {:induction false} DecodeRecovers(k: nat, m: nat, shards: seq<Vector>, present: seq<bool>, size: nat,
                                          data: seq<Vector>)
    requires WithinField(k, m) && |data| == k && Sized(k, m, shards, present) && Count(present, k + m) >= k
    requires forall i :: 0 <= i < k + m && present[i] ==> Padded(shards[i], size) == CodeShard(k, m, data, size, i)
    ensures Decoded(k, m, shards, present, size).Some?
    ensures var out := Decoded(k, m, shards, present, size).value;
      forall i :: 0 <= i < k + m ==>
        out[i] == if i < k && !present[i] then Padded(data[i], size) else shards[i]
  {
    hide Inverse, Chosen, Known, CodeShard, PickedMatch;
    DecodeSucceedsIff(k, m, shards, present, size);
    PresentShardsMatch(k, m, shards, present, size, data);
    DecodeIsExact(k, m, shards, present, size, data);
    var out := Decoded(k, m, shards, present, size).value;
    forall i | 0 <= i < k && !present[i] ensures out[i] == Padded(data[i], size) {
      assert forall b :: 0 <= b < size ==> ByteAt(out[i], b) == ByteAt(data[i], b);
    }
  }

  // The picked parity shards are those of the codeword of data.
  ghost predicate ParityMatch(k: nat, m: nat, shards: seq<Vector>, present: seq<bool>, size: nat, data: seq<Vector>)
    requires Sized(k, m, shards, present) && |data| == k
  {
    PickedIsChoice(present, k, k + m);
    forall i, b :: i in Picked(present, k, k + m) && i >= k && 0 <= b < size ==>
      ByteAt(shards[i], b) == CodeShard(k, m, data, size, i)[b]
  }

  // When the present data shards are right, only the parity can disagree.
  lemma {:induction false} OnlyParityCanDisagree(k: nat, m: nat, shards: seq<Vector>, present: seq<bool>, size: nat,
                                                 data: seq<Vector>)
    requires Sized(k, m, shards, present) && |data| == k <= 256
    requires forall i :: 0 <= i < k && present[i] ==> Padded(shards[i], size) == Padded(data[i], size)
    ensures PickedMatch(k, m, shards, present, size, data) <==> ParityMatch(k, m, shards, present, size, data)
  {
    hide CodeShard, Picked, ByteAt;
    PickedIsChoice(present, k, k + m);
    if ParityMatch(k, m, shards, present, size, data) {
      forall i, b | i in Picked(present, k, k + m) && 0 <= b < size
        ensures ByteAt(shards[i], b) == CodeShard(k, m, data, size, i)[b]
      {
        if i < k {
          DataShards(k, m, data, size, i);
          assert Padded(shards[i], size)[b] == ByteAt(shards[i], b);
        }
      }
    }
  }

  // Encode, lose any shards but k, decode: every lost data shard comes back.
  lemma {:induction false} EncodeEraseDecode(k: nat, m: nat, data: seq<Vector>, size: nat, shards: seq<Vector>,
                                             present: seq<bool>)
    requires WithinField(k, m) && |data| == k && Sized(k, m, shards, present) && Count(present, k + m) >= k
    requires forall i :: 0 <= i < k && present[i] ==> shards[i] == data[i]
    requires forall i :: 0 <= i < m && present[k + i] ==> shards[k + i] == Parity(k, m, data, size)[i]
    ensures Decoded(k, m, shards, present, size).Some?
    ensures var out := Decoded(k, m, shards, present, size).value;
      && (forall i :: 0 <= i < k ==> out[i] == if present[i] then data[i] else Padded(data[i], size))
      && (forall i :: k <= i < k + m ==> out[i] == shards[i])
  {
    hide EncMatrix, CodeShard, Decoded;
    forall i | 0 <= i < k + m && present[i] ensures Padded(shards[i], size) == CodeShard(k, m, data, size, i) {
      if i < k {
        DataShards(k, m, data, size, i);
      } else {
        assert shards[k + (i - k)] == Parity(k, m, data, size)[i - k];
      }
    }
    DecodeRecovers(k, m, shards, present, size, data);
  }

  // ----- minimum distance

  lemma {:induction false} CountComplement(p: seq<bool>, q: seq<bool>, n: nat)
    requires n <= |p| && n <= |q| && forall i :: 0 <= i < n ==> p[i] != q[i]
    ensures Count(p, n) + Count(q, n) == n
  {
    if n > 0 { CountComplement(p, q, n - 1); }
  }

  // In how many shards two codewords differ.
  ghost function Differences(k: nat, m: nat, data: seq<Vector>, other: seq<Vector>, size: nat): (d: seq<bool>)
    requires |data| == |other| == k
    ensures |d| == k + m
    ensures forall i :: 0 <= i < k + m ==>
      d[i] == (CodeShard(k, m, data, size, i) != CodeShard(k, m, other, size, i))
  {
    seq(k + m, i requires 0 <= i < k + m => CodeShard(k, m, data, size, i) != CodeShard(k, m, other, size, i))
  }

  // Codewords that agree in k shards carry the same data.
  lemma {:induction false} AgreementFixesData(k: nat, m: nat, data: seq<Vector>, other: seq<Vector>, size: nat,
                                              agree: seq<bool>)
    requires WithinField(k, m) && |data| == |other| == k && |agree| == k + m && Count(agree, k + m) >= k
    requires forall i :: 0 <= i < k + m && agree[i] ==>
      CodeShard(k, m, data, size, i) == CodeShard(k, m, other, size, i)
    ensures SameData(k, data, other, size)
  {
    hide Dot, Inverse, EncMatrix, CodeShard, Decoded;
    var n := k + m;
    var shards := seq(n, i requires 0 <= i < n => CodeShard(k, m, data, size, i));
    DecodeSucceedsIff(k, m, shards, agree, size);
    PickedIsChoice(agree, k, n);
    assert PickedMatch(k, m, shards, agree, size, data);
    assert PickedMatch(k, m, shards, agree, size, other);
    DecodeIsExact(k, m, shards, agree, size, data);
    DecodeIsExact(k, m, shards, agree, size, other);
    var out := Decoded(k, m, shards, agree, size).value;
    forall i, b | 0 <= i < k && 0 <= b < size ensures ByteAt(data[i], b) == ByteAt(other[i], b) {
      assert ByteAt(out[i], b) == ByteAt(data[i], b);
    }
  }

  // Different data differ in at least m + 1 shards of their codewords: no code of this shape does better.
  lemma {:induction false} MinimumDistance(k: nat, m: nat, data: seq<Vector>, other: seq<Vector>, size: nat)
    requires WithinField(k, m) && |data| == |other| == k && !SameData(k, data, other, size)
    ensures Count(Differences(k, m, data, other, size), k + m) >= m + 1
  {
    hide *;
    var n, differs := k + m, Differences(k, m, data, other, size);
    var agree := seq(n, i requires 0 <= i < n => !differs[i]);
    CountComplement(differs, agree, n);
    if Count(agree, n) >= k { AgreementFixesData(k, m, data, other, size, agree); }
  }
}
