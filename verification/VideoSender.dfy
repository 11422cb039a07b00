// Packetisation and parity generation of video_sender.cpp.
module VideoSending {
  import opened Wrappers
  import opened Bytes
  import opened LinearAlgebra
  import opened GaloisTables
  import opened ErasureCode
  import opened ReedSolomonCodec
  import opened VideoPackets

  datatype Frame = Frame(number: u32, data: seq<Byte>, isIdr: bool, hostProcTime: u16)

  // What stays fixed over a stream.
  datatype Stream = Stream(ssrc: u32, crypto: Option<Cipher>)

  datatype SenderState = SenderState(sequence: u16, fecGroupId: u8)

  // ----- cutting a frame into chunks

  function PacketCount(len: nat): u16 {
    (len + MAX_PAYLOAD - 1) / MAX_PAYLOAD % 0x1_0000
  }

  function Min(a: nat, b: nat): nat { if a <= b then a else b }

  // Bytes i * 1379 up to (i + 1) * 1379, as far as the frame goes.
  function Chunk(data: seq<Byte>, i: nat): seq<Byte> {
    data[Min(i * MAX_PAYLOAD, |data|)..Min((i + 1) * MAX_PAYLOAD, |data|)]
  }

  function Chunks(data: seq<Byte>): (c: seq<seq<Byte>>)
    ensures |c| == PacketCount(|data|) && forall i :: 0 <= i < |c| ==> c[i] == Chunk(data, i)
  {
    seq(PacketCount(|data|), i requires 0 <= i < PacketCount(|data|) => Chunk(data, i))
  }

  // The header of data packet i of a frame, given its sequence number and parity group.
  function DataHeader(s: Stream, sequence: u16, group: u8, f: Frame, i: nat): Header {
    var total := PacketCount(|f.data|);
    Header(2, DATA_TYPE, sequence, f.number * 1500 % 0x1_0000_0000, s.ssrc,
           f.number % 0x1_0000, i % 0x100, total % 0x100, f.hostProcTime, group, i % 0x100,
           (if f.isIdr then 1 else 0) + (if i == total - 1 then 2 else 0))
  }

  // The sequence number n packets after st.
  function Numbered(st: SenderState, n: nat): u16 { (st.sequence + n) % 0x1_0000 }

  function PlainPacket(s: Stream, st: SenderState, f: Frame, i: nat): Packet {
    Packet(DataHeader(s, Numbered(st, i), st.fecGroupId, f, i), Chunk(f.data, i))
  }

  function DataPackets(s: Stream, st: SenderState, f: Frame): (p: seq<Packet>)
    ensures |p| == PacketCount(|f.data|)
    ensures forall i :: 0 <= i < |p| ==> p[i] == Seal(s.crypto, PlainPacket(s, st, f, i))
  {
    seq(PacketCount(|f.data|), i requires 0 <= i < PacketCount(|f.data|) => Seal(s.crypto, PlainPacket(s, st, f, i)))
  }

  // ----- parity

  // static_cast<int>: truncation toward zero.
  function Trunc(r: real): int {
    if r >= 0.0 then r.Floor else -((-r).Floor)
  }

  // The given share of n packets, as the source casts it.
  function Share(n: nat, ratio: real): int { Trunc(n as real * ratio) }

  lemma {:induction false} ShareInNumbers(k: nat, ratio: real)
    ensures var share := k as real * ratio;
      if share >= 1.0 then Share(k, ratio) as real <= share < Share(k, ratio) as real + 1.0 else Share(k, ratio) <= 0
  {}

  // The number of parity shards for k data shards; at most 255 shards in all, possibly none.
  function ParityCount(k: nat, ratio: real): (m: nat)
    ensures m > 0 ==> k + m <= 255
  {
    var wanted := Share(k, ratio);
    var m := if wanted < 1 then 1 else wanted;
    if k + m <= 255 then m else if k <= 255 then 255 - k else 0
  }

  function Payloads(packets: seq<Packet>): (p: seq<Vector>)
    ensures |p| == |packets| && forall i :: 0 <= i < |p| ==> p[i] == packets[i].payload
  {
    seq(|packets|, i requires 0 <= i < |packets| => packets[i].payload)
  }

  // The longest shard.
  function ShardSize(shards: seq<Vector>): (size: nat)
    ensures forall i :: 0 <= i < |shards| ==> |shards[i]| <= size
    ensures size > 0 ==> exists i :: 0 <= i < |shards| && |shards[i]| == size
  {
    if shards == [] then 0
    else
      var rest, last := ShardSize(shards[..|shards| - 1]), |shards[|shards| - 1]|;
      assert forall i :: 0 <= i < |shards| - 1 ==> shards[..|shards| - 1][i] == shards[i];
      if last > rest then last else rest
  }

  // The header of parity packet p of m, protecting k data packets.
  function FecHeader(s: Stream, sequence: u16, group: u8, k: nat, m: nat, p: nat): Header {
    Header(2, FEC_TYPE, sequence, 0, s.ssrc, 0, m % 0x100, k % 0x100, 0, group, p % 0x100, 4)
  }

  function WrapParity(s: Stream, st: SenderState, k: nat, shards: seq<Vector>): (p: seq<Packet>)
    ensures |p| == |shards|
    ensures forall i :: 0 <= i < |p| ==>
      p[i] == Packet(FecHeader(s, Numbered(st, i), st.fecGroupId, k, |shards|, i), shards[i])
  {
    seq(|shards|, i requires 0 <= i < |shards| =>
      Packet(FecHeader(s, Numbered(st, i), st.fecGroupId, k, |shards|, i), shards[i]))
  }

  // Parity packets for data packets already on their way; st is the state after numbering those.
  ghost function FecPackets(s: Stream, st: SenderState, packets: seq<Packet>, ratio: real): seq<Packet> {
    var k := |packets|;
    var m := ParityCount(k, ratio);
    var size := ShardSize(Payloads(packets));
    if k == 0 || m == 0 || size == 0 then []
    else WrapParity(s, st, k, Parity(k, m, Payloads(packets), size))
  }

  // ----- whole frames

  function Advance(st: SenderState, n: nat): SenderState {
    st.(sequence := Numbered(st, n))
  }

  // Everything SendFrame emits, in order.
  ghost function Emitted(s: Stream, st: SenderState, f: Frame, ratio: real): (p: seq<Packet>)
    ensures |p| >= PacketCount(|f.data|)
  {
    var data := DataPackets(s, st, f);
    data + if Share(|data|, ratio) > 0 && |data| > 0 then FecPackets(s, Advance(st, |data|), data, ratio) else []
  }

  ghost function AfterFrame(s: Stream, st: SenderState, f: Frame, ratio: real): SenderState {
    Advance(st, |Emitted(s, st, f, ratio)|).(fecGroupId := (st.fecGroupId + 1) % 0x100)
  }

  function PadAll(shards: seq<Vector>, size: nat): (p: seq<Vector>)
    ensures |p| == |shards| && forall i :: 0 <= i < |p| ==> p[i] == Padded(shards[i], size)
  {
    seq(|shards|, i requires 0 <= i < |shards| => Padded(shards[i], size))
  }

  // Zero-padded copies have the same parity.
  lemma {:induction false} PaddingIsHarmless(k: nat, m: nat, shards: seq<Vector>, size: nat)
    requires |shards| == k
    ensures Parity(k, m, PadAll(shards, size), size) == Parity(k, m, shards, size)
  {
    hide EncMatrix, Dot;
    forall b | 0 <= b < size ensures Slice(PadAll(shards, size), b) == Slice(shards, b) {}
    forall i: nat | k <= i < k + m
      ensures CodeShard(k, m, PadAll(shards, size), size, i) == CodeShard(k, m, shards, size, i)
    {}
    forall i | 0 <= i < m
      ensures Parity(k, m, PadAll(shards, size), size)[i] == Parity(k, m, shards, size)[i]
    {}
  }

  lemma {:induction false} NextNumber(st: SenderState, n: nat)
    ensures (Numbered(st, n) + 1) % 0x1_0000 == Numbered(st, n + 1)
  {}

  // A parity packet, field by field.
  lemma {:induction false} FecPacketAt(s: Stream, st: SenderState, packets: seq<Packet>, ratio: real, j: nat)
    requires j < |FecPackets(s, st, packets, ratio)|
    ensures var k, m := |packets|, |FecPackets(s, st, packets, ratio)|;
      && 1 <= k && 1 <= m && k + m <= 255 && ShardSize(Payloads(packets)) > 0
      && FecPackets(s, st, packets, ratio)[j] ==
           Packet(FecHeader(s, Numbered(st, j), st.fecGroupId, k, m, j),
                  Parity(k, m, Payloads(packets), ShardSize(Payloads(packets)))[j])
  {
    hide Parity, ParityCount, FecHeader, Numbered, ShardSize;
  }

  lemma {:induction false} NumberedAfter(st: SenderState, m: nat, n: nat)
    ensures Numbered(Advance(st, m), n) == Numbered(st, m + n)
  {}

  lemma {:induction false} FirstNumber(st: SenderState)
    ensures Numbered(st, 0) == st.sequence
  {}

  lemma {:induction false} AdvanceTwice(st: SenderState, m: nat, n: nat)
    ensures Advance(Advance(st, m), n) == Advance(st, m + n)
  {}

  class VideoSender {
    const gf: GaloisField
    const stream: Stream
    var sequence: u16
    var fecRatio: real
    var fecGroupId: u8

    ghost predicate Valid() { gf.Valid() }

    ghost function State(): SenderState
      reads this
    {
      SenderState(sequence, fecGroupId)
    }

    constructor (gf: GaloisField, stream: Stream)
      requires gf.Valid()
      ensures Valid() && State() == SenderState(0, 0) && this.stream == stream && fecRatio == 0.10
    {
      this.gf, this.stream := gf, stream;
      sequence, fecRatio, fecGroupId := 0, 0.10, 0;
    }

    method SetFecRatio(ratio: real)
      modifies this`fecRatio
      ensures fecRatio == ratio
    {
      fecRatio := ratio;
    }

    // Cuts, numbers, seals and sends one frame, then its parity.
    method SendFrame(f: Frame) returns (sent: seq<Packet>)
      requires Valid()
      modifies this`sequence, this`fecGroupId
      ensures sent == Emitted(stream, old(State()), f, fecRatio)
      ensures State() == AfterFrame(stream, old(State()), f, fecRatio)
    {
      hide DataHeader, Chunk, FecPackets, Seal, Numbered, Share, PacketCount;
      ghost var st := State();
      var dataPackets := Packetise(f);
      dataPackets := SealAll(dataPackets);
      assert dataPackets == DataPackets(stream, st, f);
      var fecPackets: seq<Packet> := [];
      var fecCount := Share(|dataPackets|, fecRatio);
      if fecCount > 0 && |dataPackets| > 0 {
        fecPackets := GenerateFec(dataPackets);
        AdvanceTwice(st, |dataPackets|, |fecPackets|);
      }
      sent := dataPackets + fecPackets;
      fecGroupId := (fecGroupId + 1) % 0x100;
    }

    method Packetise(f: Frame) returns (packets: seq<Packet>)
      modifies this`sequence
      ensures |packets| == PacketCount(|f.data|)
      ensures forall j :: 0 <= j < |packets| ==> packets[j] == PlainPacket(stream, old(State()), f, j)
      ensures State() == Advance(old(State()), |packets|)
    {
      hide DataHeader, Numbered;
      ghost var st := State();
      var total := PacketCount(|f.data|);
      var offset := 0;
      packets := [];
      FirstNumber(st);
      for i := 0 to total
        invariant |packets| == i && offset == Min(i * MAX_PAYLOAD, |f.data|)
        invariant forall j :: 0 <= j < i ==> packets[j] == PlainPacket(stream, st, f, j)
        invariant sequence == Numbered(st, i)
      {
        var chunkLen := Min(MAX_PAYLOAD, |f.data| - offset);
        var hdr := DataHeader(stream, sequence, fecGroupId, f, i);
        NextNumber(st, i);
        sequence := (sequence + 1) % 0x1_0000;
        packets := packets + [Packet(hdr, f.data[offset..offset + chunkLen])];
        offset := offset + chunkLen;
      }
    }

    // Encrypts every packet in place.
    method SealAll(packets: seq<Packet>) returns (sealed: seq<Packet>)
      ensures |sealed| == |packets|
      ensures forall j :: 0 <= j < |packets| ==> sealed[j] == Seal(stream.crypto, packets[j])
    {
      hide Seal;
      sealed := packets;
      for i := 0 to |packets|
        invariant |sealed| == |packets|
        invariant forall j :: 0 <= j < i ==> sealed[j] == Seal(stream.crypto, packets[j])
        invariant forall j :: i <= j < |packets| ==> sealed[j] == packets[j]
      {
        sealed := sealed[i := Seal(stream.crypto, sealed[i])];
      }
    }

    method GenerateFec(dataPackets: seq<Packet>) returns (fecPackets: seq<Packet>)
      requires Valid()
      modifies this`sequence
      ensures fecPackets == FecPackets(stream, old(State()), dataPackets, fecRatio)
      ensures State() == Advance(old(State()), |fecPackets|)
    {
      hide Parity, WrapParity, gf.Valid, ParityCount;
      FirstNumber(State());
      fecPackets := [];
      var k := |dataPackets|;
      if k == 0 { return; }
      var m := ClampedParity(k);
      if m == 0 { return; }
      var shardSize := LongestPayload(dataPackets);
      if shardSize == 0 { return; }
      var parityShards := EncodeParity(Payloads(dataPackets), m, shardSize);
      fecPackets := WrapAll(k, parityShards);
    }

    // At least one parity shard, at most 255 shards in all.
    method ClampedParity(k: nat) returns (m: nat)
      ensures m == ParityCount(k, fecRatio)
      ensures var share := k as real * fecRatio;
        k <= 255 ==>
          (share < 1.0 ==> m == if k < 255 then 1 else 0)
          && (share >= 1.0 && k as real + share < 256.0 ==> m as real <= share < m as real + 1.0)
          && (share >= 1.0 && k as real + share >= 256.0 ==> m == 255 - k)
    {
      ShareInNumbers(k, fecRatio);
      var wanted := Share(k, fecRatio);
      if wanted < 1 { wanted := 1; }
      if k + wanted > 255 { wanted := 255 - k; }
      m := if wanted <= 0 then 0 else wanted;
    }

    method EncodeParity(shards: seq<Vector>, m: nat, shardSize: nat) returns (parityShards: seq<Vector>)
      requires Valid()
      ensures parityShards == Parity(|shards|, m, shards, shardSize)
    {
      hide Parity, gf.Valid;
      var paddedShards := PadAll(shards, shardSize);
      PaddingIsHarmless(|shards|, m, shards, shardSize);
      var rs := new ReedSolomon(gf, |shards|, m);
      var ok;
      ok, parityShards := rs.Encode(paddedShards, shardSize);
    }

    method LongestPayload(packets: seq<Packet>) returns (size: nat)
      ensures size == ShardSize(Payloads(packets))
    {
      size := 0;
      for i := 0 to |packets|
        invariant size == ShardSize(Payloads(packets)[..i])
      {
        var payloadLen := |packets[i].payload|;
        assert Payloads(packets)[..i + 1][..i] == Payloads(packets)[..i];
        if payloadLen > size { size := payloadLen; }
      }
      assert Payloads(packets)[..|packets|] == Payloads(packets);
    }

    method WrapAll(k: nat, shards: seq<Vector>) returns (fecPackets: seq<Packet>)
      modifies this`sequence
      ensures fecPackets == WrapParity(stream, old(State()), k, shards)
      ensures State() == Advance(old(State()), |fecPackets|)
    {
      hide FecHeader, Numbered;
      ghost var st := State();
      var m := |shards|;
      FirstNumber(st);
      fecPackets := [];
      for p := 0 to m
        invariant |fecPackets| == p
        invariant forall j :: 0 <= j < p ==>
          fecPackets[j] == Packet(FecHeader(stream, Numbered(st, j), st.fecGroupId, k, m, j), shards[j])
        invariant sequence == Numbered(st, p)
      {
        var hdr := FecHeader(stream, sequence, fecGroupId, k, m, p);
        NextNumber(st, p);
        sequence := (sequence + 1) % 0x1_0000;
        fecPackets := fecPackets + [Packet(hdr, shards[p])];
      }
    }
  }
}
