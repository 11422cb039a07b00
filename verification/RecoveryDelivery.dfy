// End to end with parity: enough packets of a frame arrive, and the next frame makes the receiver deliver it.
module RecoveryDelivery {
  import opened Wrappers
  import opened LinearAlgebra
  import opened ErasureCode
  import opened VideoPackets
  import opened VideoSending
  import opened VideoReceiving
  import opened FrameTracking
  import opened FrameRuns
  import opened VideoPipeline
  import opened FrameLimits
  import opened Recovery

  // ----- what the decoder is given

  lemma {:induction false} SizeStays(c: PendingFrame, size: nat, n: nat)
    requires ValidPending(c) && n <= c.totalPackets
    requires forall i :: 0 <= i < c.totalPackets && c.received[i] ==> |c.packets[i]| <= size
    ensures SizeOver(c, size, n) == size
  {
    if n > 0 { SizeStays(c, size, n - 1); }
  }

  lemma {:induction false} OwnShard(c: PendingFrame, s: FecSlot, chunks: seq<Vector>, m: nat, p: seq<bool>, i: nat)
    requires ValidPending(c) && |chunks| == c.totalPackets <= i < c.totalPackets + m && |p| == m
    requires OwnSlot(s, chunks, m, RecoverySize(c, s), p) && RecoveryPresent(c, s)[i]
    ensures RecoveryShards(c, s)[i] == CodeShard(c.totalPackets, m, chunks, RecoverySize(c, s), i)
  {
    hide RecoverySize, EncMatrix, CodeShard;
    var k, size := c.totalPackets, RecoverySize(c, s);
    assert s.parityShards[i - k] == Parity(k, m, chunks, size)[i - k];
    PaddedWhole(s.parityShards[i - k], size);
  }

  lemma {:induction false} OwnSlotMatches(c: PendingFrame, s: FecSlot, chunks: seq<Vector>, m: nat, p: seq<bool>)
    requires ValidPending(c) && |chunks| == c.totalPackets && |p| == m
    requires OwnSlot(s, chunks, m, RecoverySize(c, s), p)
    ensures ParityMatches(c, s, chunks)
  {
    hide RecoverySize, RecoveryShards, RecoveryPresent, CodeShard, Parity;
    var k := c.totalPackets;
    PickedIsChoice(RecoveryPresent(c, s), k, k + m);
    forall i | i in Picked(RecoveryPresent(c, s), k, k + m) && i >= k
      ensures RecoveryShards(c, s)[i] == CodeShard(k, m, chunks, RecoverySize(c, s), i)
    {
      OwnShard(c, s, chunks, m, p, i);
    }
  }

  // With its own parity in the slot, recovery gives back every missing chunk, zero padded.
  lemma {:induction false} OwnRecovery(st: State, chunks: seq<Vector>, m: nat, size: nat, p: seq<bool>, u: nat)
    requires Valid(st) && Holds(st.current, chunks) && |chunks| + m <= 255 && |p| == m
    requires forall i :: 0 <= i < |chunks| ==> |chunks[i]| <= size
    requires u < SLOTS && FirstUsable(st.current, st.slots, 0) == u && OwnSlot(st.slots[u], chunks, m, size, p)
    ensures var d := Recover(st).current;
      && d.receivedCount == d.totalPackets == |chunks| == |d.packets|
      && forall i :: 0 <= i < |chunks| ==>
           d.packets[i] == if st.current.received[i] then chunks[i] else Padded(chunks[i], size)
  {
    hide FirstUsable, Recover, ParityMatches, RecoverySize, Parity, Restores;
    var c, s := st.current, st.slots[u];
    RecoverySizeIs(c, s, chunks, size);
    OwnSlotMatches(c, s, chunks, m, p);
    RecoveryIsExactIff(st, chunks);
    RecoveryUpToSize(st, chunks);
    var d := Recover(st).current;
    forall i | 0 <= i < |chunks| && !c.received[i] ensures d.packets[i] == Padded(chunks[i], size) {
      RestoresMeans(d.packets[i], chunks[i]);
    }
  }

  lemma {:induction false} RestoresMeans(packet: Vector, chunk: Vector)
    requires Restores(packet, chunk)
    ensures packet == Padded(chunk, |packet|)
  {}

  lemma {:induction false} RecoverySizeIs(c: PendingFrame, s: FecSlot, chunks: seq<Vector>, size: nat)
    requires Holds(c, chunks) && s.shardSize == size && forall i :: 0 <= i < |chunks| ==> |chunks[i]| <= size
    ensures RecoverySize(c, s) == size
  {
    SizeStays(c, size, c.totalPackets);
  }

  // The slot has live parity for k packets, enough of it for a frame of which `have` packets are there.
  predicate Serves(s: FecSlot, k: nat, have: nat)
    requires ValidSlot(s)
  {
    s.isRs && s.dataShardCount == k && have + Count(s.parityPresent, s.parityShardCount) >= k
  }

  lemma {:induction false} FirstUsableIs(c: PendingFrame, slots: seq<FecSlot>, u: nat, j: nat)
    requires ValidPending(c) && j <= u < |slots| && forall i :: 0 <= i < |slots| ==> ValidSlot(slots[i])
    requires Usable(c, slots[u]) && forall i :: j <= i < u ==> !Usable(c, slots[i])
    ensures FirstUsable(c, slots, j) == u
    decreases u - j
  {
    hide Usable;
    if j < u { FirstUsableIs(c, slots, u, j + 1); }
  }

  // The frame's slot is the first usable one: none before it is.
  lemma {:induction false} OwnSlotIsFirst(st: State, chunks: seq<Vector>, m: nat, size: nat, p: seq<bool>, u: nat)
    requires Valid(st) && Holds(st.current, chunks) && st.current.receivedCount < |chunks| && |p| == m
    requires u < SLOTS && OwnSlot(st.slots[u], chunks, m, size, p)
    requires st.current.receivedCount + Count(p, m) >= |chunks|
    requires forall i :: 0 <= i < u ==> !Serves(st.slots[i], |chunks|, st.current.receivedCount)
    ensures FirstUsable(st.current, st.slots, 0) == u
  {
    hide Parity;
    SameCount(st.slots[u].parityPresent, p, m);
    forall i | 0 <= i < u ensures !Usable(st.current, st.slots[i]) {
      assert !Serves(st.slots[i], |chunks|, st.current.receivedCount);
    }
    FirstUsableIs(st.current, st.slots, u, 0);
  }

  lemma {:induction false} SameCount(p: seq<bool>, q: seq<bool>, n: nat)
    requires n <= |p| && n <= |q| && forall i :: 0 <= i < n ==> p[i] == q[i]
    ensures Count(p, n) == Count(q, n)
  {
    if n > 0 { SameCount(p, q, n - 1); }
  }

  // ----- what the sender sent

  // A packet of the frame's emission.
  ghost predicate FromEmission(s: Stream, st: SenderState, f: Frame, ratio: real, a: Arrival) {
    a.packet in Emitted(s, st, f, ratio)
  }

  lemma {:induction false} PlainPayloads(s: Stream, st: SenderState, f: Frame)
    requires s.crypto.None?
    ensures Payloads(DataPackets(s, st, f)) == Chunks(f.data)
  {
    hide PacketCount, Chunk;
  }

  lemma {:induction false} FullSize(f: Frame)
    requires Fits(f) && PacketCount(|f.data|) >= 2
    ensures ShardSize(Chunks(f.data)) == MAX_PAYLOAD
    ensures forall i :: 0 <= i < |Chunks(f.data)| ==> |Chunks(f.data)[i]| <= MAX_PAYLOAD
  {
    ChunksPartitionTheFrame(f.data);
    ChunkSizes(f.data, 0);
    assert |Chunks(f.data)[0]| == MAX_PAYLOAD;
    hide Chunk, PacketCount;
  }

  lemma {:induction false} LongestChunk(f: Frame)
    requires Fits(f) && PacketCount(|f.data|) >= 2
    ensures ShardSize(Chunks(f.data)) == MAX_PAYLOAD && |Chunks(f.data)| == PacketCount(|f.data|)
  {
    FullSize(f);
  }

  lemma {:induction false} FecPayload(s: Stream, st: SenderState, packets: seq<Packet>, ratio: real, j: nat,
                                      chunks: seq<Vector>, size: nat)
    requires j < |FecPackets(s, st, packets, ratio)| && Payloads(packets) == chunks && ShardSize(chunks) == size
    ensures var fec := FecPackets(s, st, packets, ratio);
      fec[j].payload == Parity(|packets|, |fec|, chunks, size)[j]
  {
    hide FecPackets, Parity, ShardSize, Numbered, FecHeader;
    FecPacketAt(s, st, packets, ratio, j);
  }

  // The payloads as they go out: the chunks, encrypted if the stream is.
  function Sealed(s: Stream, st: SenderState, f: Frame): (p: seq<Vector>)
    ensures |p| == PacketCount(|f.data|)
  {
    Payloads(DataPackets(s, st, f))
  }

  // A parity packet carries a shard of the code over the payloads as they go out.
  lemma {:induction false} SealedParity(s: Stream, st: SenderState, f: Frame, ratio: real, i: nat)
    requires PacketCount(|f.data|) <= i < |Emitted(s, st, f, ratio)|
    ensures var n, sealed := PacketCount(|f.data|), Sealed(s, st, f);
      Emitted(s, st, f, ratio)[i].payload ==
        Parity(n, |Emitted(s, st, f, ratio)| - n, sealed, ShardSize(sealed))[i - n]
  {
    hide *;
    SealedMeans(s, st, f);
    var n, sealed := PacketCount(|f.data|), Sealed(s, st, f);
    EmittedParity(s, st, f, ratio, i);
    FecPayload(s, Advance(st, n), DataPackets(s, st, f), ratio, i - n, sealed, ShardSize(sealed));
  }

  // Unencrypted payloads are the chunks, and the longest is as long as a payload can be.
  lemma {:induction false} PlainShards(s: Stream, st: SenderState, f: Frame)
    requires s.crypto.None? && Fits(f) && PacketCount(|f.data|) >= 2
    ensures Sealed(s, st, f) == Chunks(f.data) && ShardSize(Sealed(s, st, f)) == MAX_PAYLOAD
  {
    hide *;
    PlainPayloads(s, st, f);
    LongestChunk(f);
    SealedMeans(s, st, f);
  }

  lemma {:induction false} SealedMeans(s: Stream, st: SenderState, f: Frame)
    ensures Sealed(s, st, f) == Payloads(DataPackets(s, st, f))
  {}

  // A parity packet of an unencrypted frame carries a shard of the code over the frame's own chunks.
  lemma {:induction false} EmissionParity(s: Stream, st: SenderState, f: Frame, ratio: real, i: nat)
    requires s.crypto.None? && Fits(f) && PacketCount(|f.data|) >= 2
    requires PacketCount(|f.data|) <= i < |Emitted(s, st, f, ratio)|
    ensures var n, sent := PacketCount(|f.data|), Emitted(s, st, f, ratio);
      sent[i].payload == Parity(n, |sent| - n, Chunks(f.data), MAX_PAYLOAD)[i - n]
  {
    hide *;
    PlainShards(s, st, f);
    SealedParity(s, st, f, ratio, i);
  }

  // An arriving packet of a frame is one of its data packets, or one of its own parity packets, computed over
  // the payloads as they went out.
  lemma {:induction false} EmissionKinds(s: Stream, st: SenderState, f: Frame, ratio: real, a: Arrival)
    requires CipherOk(s) && Fits(f) && FromEmission(s, st, f, ratio, a)
    ensures var sealed := Sealed(s, st, f);
      || IsOf(s.crypto, a, ImageOf(f))
      || IsParityOf(a, st.fecGroupId, sealed, |Emitted(s, st, f, ratio)| - PacketCount(|f.data|), ShardSize(sealed))
  {
    hide IsOf, DataPackets, PacketCount, Parity, Fits, ImageOf, RsFlag, Sealed, ShardSize, Lawful;
    var n, i := PacketCount(|f.data|), IndexIn(a.packet, Emitted(s, st, f, ratio));
    if i < n {
      hide IsParityOf;
      DataFirst(s, st, f, ratio, i);
      SentIsOf(s, st, f, i, a);
    } else {
      hide Emitted;
      ParityFieldsSurvive(s, st, f, ratio, i);
      SealedParity(s, st, f, ratio, i);
    }
  }

  lemma {:induction false} DataFirst(s: Stream, st: SenderState, f: Frame, ratio: real, i: nat)
    requires i < PacketCount(|f.data|) && i < |Emitted(s, st, f, ratio)|
    ensures Emitted(s, st, f, ratio)[i] == DataPackets(s, st, f)[i]
  {
    hide PacketCount, FecPackets, Share;
  }

  ghost function IndexIn<T(!new)>(x: T, s: seq<T>): (i: nat)
    requires x in s
    ensures i < |s| && s[i] == x
  {
    var i :| 0 <= i < |s| && s[i] == x;
    i
  }

  // ----- no completion

  lemma {:induction false} FlagsGrow(n: nat, arrivals: seq<Arrival>, j: nat)
    requires j <= |arrivals| && All(Flags(n, arrivals[..j]))
    ensures All(Flags(n, arrivals))
    decreases |arrivals| - j
  {
    if j == |arrivals| {
      assert arrivals[..j] == arrivals;
    } else {
      assert arrivals[..j + 1][..j] == arrivals[..j];
      FlagsGrow(n, arrivals, j + 1);
    }
  }

  lemma {:induction false} IncompleteIsTidy(n: nat, arrivals: seq<Arrival>)
    requires !All(Flags(n, arrivals))
    ensures Tidy(n, arrivals)
  {
    hide Flags, All;
    forall j | 0 <= j < |arrivals| && !IsParity(arrivals[j]) ensures !All(Flags(n, arrivals[..j])) {
      if All(Flags(n, arrivals[..j])) { FlagsGrow(n, arrivals, j); }
    }
  }

  // ----- the rebuilt frame

  function Last(chunks: seq<Vector>): Vector
    requires chunks != []
  {
    chunks[|chunks| - 1]
  }

  // Zero padding shows only at the end, because every other chunk is full.
  lemma {:induction false} PaddedTail(chunks: seq<Vector>, packets: seq<Vector>, f: seq<bool>, size: nat)
    requires |chunks| == |packets| == |f| > 0 && |Last(chunks)| <= size
    requires forall i :: 0 <= i < |chunks| - 1 ==> |chunks[i]| == size
    requires forall i :: 0 <= i < |chunks| ==> packets[i] == if f[i] then chunks[i] else Padded(chunks[i], size)
    ensures Concat(packets) == Concat(chunks) + Zero(if f[|f| - 1] then 0 else size - |Last(chunks)|)
  {
    var n := |chunks| - 1;
    forall i | 0 <= i < n ensures packets[i] == chunks[i] { assert Padded(chunks[i], size) == chunks[i]; }
    assert packets[..n] == chunks[..n];
    var z := Zero(if f[n] then 0 else size - |chunks[n]|);
    assert packets[n] == chunks[n] + z;
    assert (Concat(chunks[..n]) + chunks[n]) + z == Concat(chunks[..n]) + (chunks[n] + z);
  }

  // How many zero bytes follow the frame: none, unless the last chunk was the one rebuilt.
  function PaddingOf(f: Frame, flags: seq<bool>): nat
    requires Fits(f) && |flags| == PacketCount(|f.data|)
  {
    FittingCount(f);
    ChunkSizes(f.data, |flags| - 1);
    if flags[|flags| - 1] then 0 else MAX_PAYLOAD - |Chunk(f.data, |flags| - 1)|
  }

  // The frame as delivered after recovery.
  function RebuiltDelivery(f: Frame, flags: seq<bool>, at: int): Delivery
    requires Fits(f) && |flags| == PacketCount(|f.data|)
  {
    Delivery(f.number % 0x1_0000, f.data + Zero(PaddingOf(f, flags)), at, f.isIdr, PacketCount(|f.data|))
  }

  lemma {:induction false} RebuiltData(f: Frame, flags: seq<bool>, packets: seq<Vector>)
    requires Fits(f) && |flags| == |packets| == PacketCount(|f.data|)
    requires forall i :: 0 <= i < |packets| ==>
      packets[i] == if flags[i] then Chunk(f.data, i) else Padded(Chunk(f.data, i), MAX_PAYLOAD)
    ensures Concat(packets) == f.data + Zero(PaddingOf(f, flags))
  {
    FittingCount(f);
    var chunks := Chunks(f.data);
    forall i | 0 <= i < |chunks|
      ensures |chunks[i]| <= MAX_PAYLOAD && (i < |chunks| - 1 ==> |chunks[i]| == MAX_PAYLOAD)
    {
      ChunkSizes(f.data, i);
    }
    PaddedTail(chunks, packets, flags, MAX_PAYLOAD);
    hide Chunk, PacketCount, Concat;
  }

  lemma {:induction false} FlushedFirst(st: State, next: Arrival)
    requires Valid(st) && 0 < st.current.receivedCount < st.current.totalPackets
    requires !IsParity(next) && next.packet.hdr.frameNumber != st.current.frameNumber
    requires Recover(st).current.receivedCount == Recover(st).current.totalPackets
    ensures Step(None, st, next).1 != [] && Step(None, st, next).1[0] == Assembled(Recover(st).current)
  {
    hide Recover, Store, Assembled;
  }

  // A partly received frame whose own parity suffices is flushed, and uses that parity up.
  lemma {:induction false} FlushOwn(st: State, f: Frame, flags: seq<bool>, at: int, m: nat, p: seq<bool>, u: nat)
    requires Fits(f) && Valid(st) && |flags| == PacketCount(|f.data|) && !All(flags) && |p| == m
    requires st.current == Tracking(ImageOf(f), flags, at) && 0 < st.current.receivedCount
    requires |flags| + m <= 255 && u < SLOTS && OwnSlot(st.slots[u], Chunks(f.data), m, MAX_PAYLOAD, p)
    requires Count(flags, |flags|) + Count(p, m) >= |flags|
    requires forall i :: 0 <= i < u ==> !Serves(st.slots[i], |flags|, Count(flags, |flags|))
    ensures st.current.receivedCount < st.current.totalPackets && st.current.frameNumber == f.number % 0x1_0000
    ensures Recover(st).current.receivedCount == Recover(st).current.totalPackets
    ensures Assembled(Recover(st).current) == RebuiltDelivery(f, flags, at)
    ensures Flush(st) == (st.slots[u := MarkUsed(st.slots[u])], [RebuiltDelivery(f, flags, at)])
  {
    hide Recover, FirstUsable, OwnSlot, Chunk, PacketCount, Concat, RebuiltDelivery, Flush;
    var g := ImageOf(f);
    CompleteIff(g, flags, at);
    FittingCount(f);
    ChunksPartitionTheFrame(f.data);
    OwnSlotIsFirst(st, g.chunks, m, MAX_PAYLOAD, p, u);
    OwnRecovery(st, g.chunks, m, MAX_PAYLOAD, p, u);
    var d := Recover(st).current;
    RebuiltData(f, flags, d.packets);
    RecoverKeepsHeader(st);
    RebuiltIs(f, flags, at, d);
    FlushAttempt(st);
    FlushUses(st);
  }

  lemma {:induction false} FlushUses(st: State)
    requires Valid(st) && 0 < st.current.receivedCount < st.current.totalPackets
    requires FirstUsable(st.current, st.slots, 0) < SLOTS
    ensures var u := FirstUsable(st.current, st.slots, 0); Flush(st).0 == st.slots[u := MarkUsed(st.slots[u])]
  {
    hide Decoded, FirstUsable;
  }

  // The next frame's first packet flushes it.
  lemma {:induction false} FlushDelivers(st: State, f: Frame, flags: seq<bool>, at: int, m: nat, p: seq<bool>, u: nat,
                                         next: Arrival)
    requires Fits(f) && Valid(st) && |flags| == PacketCount(|f.data|) && !All(flags) && |p| == m
    requires st.current == Tracking(ImageOf(f), flags, at) && 0 < st.current.receivedCount
    requires |flags| + m <= 255 && u < SLOTS && OwnSlot(st.slots[u], Chunks(f.data), m, MAX_PAYLOAD, p)
    requires Count(flags, |flags|) + Count(p, m) >= |flags|
    requires forall i :: 0 <= i < u ==> !Serves(st.slots[i], |flags|, Count(flags, |flags|))
    requires !IsParity(next) && next.packet.hdr.frameNumber != f.number % 0x1_0000
    ensures Step(None, st, next).1 != [] && Step(None, st, next).1[0] == RebuiltDelivery(f, flags, at)
  {
    hide Recover, OwnSlot, Chunk, PacketCount, Step, RebuiltDelivery, Flush, Tracking, Serves, Fits;
    FlushOwn(st, f, flags, at, m, p, u);
    FlushedFirst(st, next);
  }

  lemma {:induction false} RecoverKeepsHeader(st: State)
    requires Valid(st)
    ensures var c, d := st.current, Recover(st).current;
      d.frameNumber == c.frameNumber && d.firstPacketTime == c.firstPacketTime && d.isIdr == c.isIdr
  {
    hide Decoded, FirstUsable;
  }

  lemma {:induction false} RebuiltIs(f: Frame, flags: seq<bool>, at: int, d: PendingFrame)
    requires Fits(f) && |flags| == PacketCount(|f.data|)
    requires d.frameNumber == f.number % 0x1_0000 && d.firstPacketTime == at && d.isIdr == f.isIdr
    requires d.totalPackets == |flags| && Concat(d.packets) == f.data + Zero(PaddingOf(f, flags))
    ensures Assembled(d) == RebuiltDelivery(f, flags, at)
  {
    hide PaddingOf, PacketCount, Concat;
  }

  lemma {:induction false} SomeMissing(f: seq<bool>)
    requires SomeKept(f) && !All(f)
    ensures |f| >= 2 && 0 < Count(f, |f|) < |f|
  {
    var i :| 0 <= i < |f| && f[i];
    var j :| 0 <= j < |f| && !f[j];
    CountBelow(f, |f|, j);
    CountAbove(f, |f|, i);
  }

  lemma {:induction false} CountAbove(f: seq<bool>, n: nat, i: nat)
    requires i < n <= |f| && f[i]
    ensures Count(f, n) > 0
  {
    if n - 1 > i { CountAbove(f, n - 1, i); }
  }

  lemma {:induction false} FlagsIffData(crypto: Option<Cipher>, arrivals: seq<Arrival>, g: Image)
    requires Concerns(crypto, arrivals, g)
    ensures HasData(arrivals) <==> SomeKept(Flags(|g.chunks|, arrivals))
  {
    if arrivals != [] {
      var before, a := arrivals[..|arrivals| - 1], arrivals[|arrivals| - 1];
      FlagsIffData(crypto, before, g);
      var f, f' := Flags(|g.chunks|, before), Flags(|g.chunks|, arrivals);
      if IsParity(a) {
        assert f' == f;
      } else {
        assert f'[a.packet.hdr.packetIndex];
      }
    }
  }

  // ----- a frame received in part, whatever the slots hold

  lemma {:induction false} EmissionConcerns(s: Stream, st: SenderState, f: Frame, ratio: real, arrivals: seq<Arrival>)
    requires CipherOk(s) && Fits(f)
    requires forall i :: 0 <= i < |arrivals| ==> FromEmission(s, st, f, ratio, arrivals[i])
    ensures Concerns(s.crypto, arrivals, ImageOf(f))
  {
    hide IsOf, DataPackets, PacketCount, Emitted, ImageOf, Lawful, IsParity;
    forall j | 0 <= j < |arrivals| ensures IsParity(arrivals[j]) || IsOf(s.crypto, arrivals[j], ImageOf(f)) {
      var a := arrivals[j];
      var i := IndexIn(a.packet, Emitted(s, st, f, ratio));
      if i < PacketCount(|f.data|) {
        DataFirst(s, st, f, ratio, i);
        SentIsOf(s, st, f, i, a);
      } else {
        ParityIsParity(s, st, f, ratio, i);
        ParityType(a);
      }
    }
  }

  lemma {:induction false} ParityType(a: Arrival)
    ensures IsParity(a) <==> a.packet.hdr.payloadType == FEC_TYPE
  {}

  lemma {:induction false} TrackingHolds(g: Image, f: seq<bool>, at: int)
    requires |f| == |g.chunks|
    ensures Holds(Tracking(g, f, at), g.chunks) && Tracking(g, f, at).received == f
  {}

  // No frame is pending, or one with another number.
  predicate Free(r: State, f: Frame) {
    r.current == BLANK || r.current.frameNumber != f.number % 0x1_0000
  }

  // What the receiver makes of some packets of a frame, encrypted or not: the first data packet flushes what was
  // pending, and of the frame itself nothing is delivered yet.
  lemma {:induction false} PartOfFrame(s: Stream, st: SenderState, f: Frame, ratio: real, r: State,
                                       arrivals: seq<Arrival>)
    requires CipherOk(s) && Fits(f) && Valid(r) && Free(r, f)
    requires forall i :: 0 <= i < |arrivals| ==> FromEmission(s, st, f, ratio, arrivals[i])
    requires !All(Flags(PacketCount(|f.data|), arrivals))
    ensures var flags := Flags(PacketCount(|f.data|), arrivals);
      && |flags| == |ImageOf(f).chunks|
      && Run(s.crypto, r, arrivals) ==
           if SomeKept(flags) then
             (State(Tracking(ImageOf(f), flags, FirstAt(arrivals)), PartSlots(r, arrivals)),
              Flush(Led(r, arrivals)).1)
           else (State(r.current, SlotsAfter(r.slots, arrivals)), [])
  {
    hide Run, Flags, All, Tidy, Concerns, FromEmission, PacketCount, Tracking, SlotsAfter, Fits, ImageOf, HasData,
      FirstAt, Lawful, PartSlots, Flush, Led, Valid;
    var k, g := PacketCount(|f.data|), ImageOf(f);
    var flags, flushed := Flags(k, arrivals), Flush(Led(r, arrivals)).1;
    FittingCount(f);
    EmissionConcerns(s, st, f, ratio, arrivals);
    IncompleteIsTidy(k, arrivals);
    FlagsIffData(s.crypto, arrivals, g);
    ImageNumber(f);
    OneMoreFrame(s.crypto, r, g, arrivals);
    assert flushed + [] == flushed;
  }

  lemma {:induction false} ImageNumber(f: Frame)
    ensures ImageOf(f).number == f.number % 0x1_0000
  {}

  // A blank receiver has nothing to flush.
  lemma {:induction false} PartFromBlank(s: Stream, st: SenderState, f: Frame, ratio: real, r: State,
                                         arrivals: seq<Arrival>)
    requires CipherOk(s) && Fits(f) && Valid(r) && r.current == BLANK
    requires forall i :: 0 <= i < |arrivals| ==> FromEmission(s, st, f, ratio, arrivals[i])
    requires !All(Flags(PacketCount(|f.data|), arrivals))
    ensures var flags := Flags(PacketCount(|f.data|), arrivals);
      && |flags| == |ImageOf(f).chunks|
      && var pending := if SomeKept(flags) then Tracking(ImageOf(f), flags, FirstAt(arrivals)) else BLANK;
         Run(s.crypto, r, arrivals) == (State(pending, SlotsAfter(r.slots, arrivals)), [])
  {
    hide Run, Flags, All, FromEmission, PacketCount, Tracking, SlotsAfter, Fits, ImageOf, FirstAt, Lawful, PartSlots,
      Flush, Led, SomeKept;
    PartOfFrame(s, st, f, ratio, r, arrivals);
    BlankFlush(r, arrivals);
  }

  lemma {:induction false} BlankFlush(r: State, part: seq<Arrival>)
    requires Valid(r) && r.current == BLANK
    ensures Flush(Led(r, part)) == (Led(r, part).slots, []) && PartSlots(r, part) == SlotsAfter(r.slots, part)
  {
    hide SlotsAfter, Flush, ValidSlot;
    var h := Lead(part);
    NothingToFlush(Led(r, part));
    SlotsAppend(r.slots, part[..h], part[h..]);
    assert part[..h] + part[h..] == part;
  }

  lemma {:induction false} SlotsAppend(slots: seq<FecSlot>, a: seq<Arrival>, b: seq<Arrival>)
    requires |slots| == SLOTS && forall j :: 0 <= j < SLOTS ==> ValidSlot(slots[j])
    ensures SlotsAfter(slots, a + b) == SlotsAfter(SlotsAfter(slots, a), b)
  {
    hide StoreFec, ValidSlot;
    if b == [] {
      assert a + b == a;
    } else {
      var c := b[..|b| - 1];
      assert (a + b)[..|a + b| - 1] == a + c;
      SlotsAppend(slots, a, c);
    }
  }

  // What the next frame then flushes: nothing when no slot is usable. Otherwise the frame is delivered, and
  // rightly exactly when the slot's parity is that of its own chunks and no missing chunk exceeds the size.
  lemma {:induction false} LossyFrame(s: Stream, st: SenderState, f: Frame, ratio: real, r: State,
                                      arrivals: seq<Arrival>)
    requires CipherOk(s) && Fits(f) && Valid(r) && Free(r, f)
    requires forall i :: 0 <= i < |arrivals| ==> FromEmission(s, st, f, ratio, arrivals[i])
    requires !All(Flags(PacketCount(|f.data|), arrivals))
    ensures var kept := SomeKept(Flags(PacketCount(|f.data|), arrivals));
      Run(s.crypto, r, arrivals).1 == if kept then Flush(Led(r, arrivals)).1 else []
    ensures var mid, chunks := Run(s.crypto, r, arrivals).0, Chunks(f.data);
      var c, d, u := mid.current, Recover(mid).current, FirstUsable(mid.current, mid.slots, 0);
      && (u == SLOTS ==> Flush(mid).1 == [])
      && (SomeKept(Flags(PacketCount(|f.data|), arrivals)) && u < SLOTS
            && WithinField(|chunks|, mid.slots[u].parityShardCount) ==>
          && Flush(mid).1 == [Assembled(d)] && |d.packets| == |chunks| == c.totalPackets
          && ((forall i :: 0 <= i < |chunks| ==> Restores(d.packets[i], chunks[i])) <==>
              && ParityMatches(c, mid.slots[u], chunks)
              && forall i :: 0 <= i < |chunks| && !c.received[i] ==> |chunks[i]| <= RecoverySize(c, mid.slots[u])))
  {
    hide Run, Recover, Flags, All, FromEmission, PacketCount, Tracking, SlotsAfter, Fits, FirstAt, Lawful, Chunk,
      Restores, ParityMatches, RecoverySize, SomeKept, WithinField, FirstUsable, Holds, Assembled, PartSlots, Led,
      Flush;
    var flags := Flags(PacketCount(|f.data|), arrivals);
    FittingCount(f);
    PartOfFrame(s, st, f, ratio, r, arrivals);
    var mid := Run(s.crypto, r, arrivals).0;
    UnusableFlush(mid);
    if SomeKept(flags) {
      SomeMissing(flags);
      PendingOutcome(mid, f, flags, FirstAt(arrivals));
    }
  }

  // What a flush makes of the packets of a frame that are pending.
  lemma {:induction false} PendingOutcome(mid: State, f: Frame, flags: seq<bool>, at: int)
    requires Fits(f) && Valid(mid) && |flags| == |ImageOf(f).chunks| && 0 < Count(flags, |flags|) < |flags|
    requires mid.current == Tracking(ImageOf(f), flags, at)
    ensures var chunks := Chunks(f.data);
      var c, d, u := mid.current, Recover(mid).current, FirstUsable(mid.current, mid.slots, 0);
      && (u < SLOTS && WithinField(|chunks|, mid.slots[u].parityShardCount) ==>
          && Flush(mid).1 == [Assembled(d)] && |d.packets| == |chunks| == c.totalPackets
          && ((forall i :: 0 <= i < |chunks| ==> Restores(d.packets[i], chunks[i])) <==>
              && ParityMatches(c, mid.slots[u], chunks)
              && forall i :: 0 <= i < |chunks| && !c.received[i] ==> |chunks[i]| <= RecoverySize(c, mid.slots[u])))
  {
    hide Recover, PacketCount, Tracking, Fits, Chunk, Restores, ParityMatches, RecoverySize, WithinField, FirstUsable,
      Holds, Assembled, Flush;
    var g := ImageOf(f);
    FittingCount(f);
    TrackingHolds(g, flags, at);
    TrackingCounts(g, flags, at);
    FlushAttempt(mid);
    var u := FirstUsable(mid.current, mid.slots, 0);
    if u < SLOTS && WithinField(|g.chunks|, mid.slots[u].parityShardCount) {
      RecoveryIsExactIff(mid, g.chunks);
    }
  }

  lemma {:induction false} UnusableFlush(st: State)
    requires Valid(st)
    ensures FirstUsable(st.current, st.slots, 0) == SLOTS ==> Flush(st).1 == []
  {
    hide FirstUsable;
    if 0 < st.current.receivedCount < st.current.totalPackets { FlushAttempt(st); }
  }

  lemma {:induction false} TrackingCounts(g: Image, f: seq<bool>, at: int)
    requires |f| == |g.chunks|
    ensures Tracking(g, f, at).receivedCount == Count(f, |f|) && Tracking(g, f, at).totalPackets == |f|
    ensures |f| > 0 ==> Tracking(g, f, at) != BLANK
  {}

  lemma {:induction false} FlushAttempt(st: State)
    requires Valid(st) && 0 < st.current.receivedCount < st.current.totalPackets
    ensures var d := Recover(st).current;
      Flush(st).1 == if d.receivedCount == d.totalPackets then [Assembled(d)] else []
    ensures FirstUsable(st.current, st.slots, 0) == SLOTS ==> Flush(st).1 == []
  {
    hide Decoded, FirstUsable, Assembled;
  }

  // The packets of a frame change only the frame's own slot, to hold the parity that arrived.
  lemma {:induction false} OwnParityOnly(s: Stream, st: SenderState, f: Frame, ratio: real, slots: seq<FecSlot>,
                                         arrivals: seq<Arrival>)
    requires CipherOk(s) && Fits(f) && |slots| == SLOTS && forall j :: 0 <= j < SLOTS ==> ValidSlot(slots[j])
    requires forall i :: 0 <= i < |arrivals| ==> FromEmission(s, st, f, ratio, arrivals[i])
    ensures var m, t := |Emitted(s, st, f, ratio)| - PacketCount(|f.data|), SlotsAfter(slots, arrivals);
      var p, u, sealed := ParityFlags(m, arrivals), st.fecGroupId % SLOTS, Sealed(s, st, f);
      && (forall j :: 0 <= j < SLOTS && j != u ==> t[j] == slots[j])
      && (if !SomeKept(p) then t[u] == slots[u] else StoredOver(t[u], slots[u], sealed, m, ShardSize(sealed), p))
  {
    hide IsOf, IsParityOf, IsParity, PacketCount, Emitted, FromEmission, ParityFlags, SlotsAfter, StoredOver, Fits,
      Sealed, ShardSize, CipherOk;
    var m, sealed := |Emitted(s, st, f, ratio)| - PacketCount(|f.data|), Sealed(s, st, f);
    forall i | 0 <= i < |arrivals| && IsParity(arrivals[i])
      ensures IsParityOf(arrivals[i], st.fecGroupId, sealed, m, ShardSize(sealed))
    {
      EmissionKinds(s, st, f, ratio, arrivals[i]);
      KindsDiffer(s.crypto, arrivals[i], ImageOf(f));
    }
    SlotsWithOwnParity(slots, arrivals, st.fecGroupId, sealed, m, ShardSize(sealed));
  }

  lemma {:induction false} ParityFlagsAppend(m: nat, a: seq<Arrival>, b: seq<Arrival>)
    ensures forall i :: 0 <= i < m ==> ParityFlags(m, a + b)[i] == (ParityFlags(m, a)[i] || ParityFlags(m, b)[i])
  {
    hide IsParity;
    if b == [] {
      assert a + b == a;
    } else {
      var c := b[..|b| - 1];
      assert (a + b)[..|a + b| - 1] == a + c && (a + b)[|a + b| - 1] == b[|b| - 1];
      ParityFlagsAppend(m, a, c);
    }
  }

  // The flush leaves a slot as it is or marks it used.
  lemma {:induction false} FlushMarks(st: State, u: nat)
    requires Valid(st) && u < SLOTS
    ensures Flush(st).0[u] == st.slots[u] || Flush(st).0[u] == MarkUsed(st.slots[u])
  {
    hide Decoded, FirstUsable;
  }

  // The own slot has not been used up by the flush, or parity of the frame arrives after that.
  ghost predicate Relit(r: State, arrivals: seq<Arrival>, m: nat, u: nat)
    requires Valid(r) && u < SLOTS
  {
    Flush(Led(r, arrivals)).0[u] == Led(r, arrivals).slots[u] || SomeKept(ParityFlags(m, arrivals[Lead(arrivals)..]))
  }

  lemma {:induction false} StoredThroughFlush(before: FecSlot, led: FecSlot, met: FecSlot, after: FecSlot,
                                              sealed: seq<Vector>, m: nat, size: nat, lead: seq<bool>,
                                              rest: seq<bool>, p: seq<bool>)
    requires |lead| == |rest| == |p| == m && (forall i :: 0 <= i < m ==> p[i] == (lead[i] || rest[i])) && SomeKept(p)
    requires if SomeKept(lead) then StoredOver(led, before, sealed, m, size, lead) else led == before
    requires ValidSlot(before) && (met == led || met == MarkUsed(led))
    requires if SomeKept(rest) then StoredOver(after, met, sealed, m, size, rest) else after == met == led
    ensures StoredOver(after, before, sealed, m, size, p)
  {
    hide Parity;
    if !SomeKept(lead) { assert forall i :: 0 <= i < m ==> !lead[i]; }
    if !SomeKept(rest) {
      assert forall i :: 0 <= i < m ==> !rest[i];
      assert SomeKept(lead) by {
        var i :| 0 <= i < m && p[i];
        assert lead[i];
      }
    }
  }

  // After a frame's packets, its own slot holds the parity that arrived over what was there before, also when the
  // frame before is flushed in between; of the other slots the flush may have used one up.
  lemma {:induction false} OwnParityAfter(s: Stream, st: SenderState, f: Frame, ratio: real, r: State,
                                          arrivals: seq<Arrival>, p: seq<bool>)
    requires CipherOk(s) && Fits(f) && Valid(r)
    requires forall i :: 0 <= i < |arrivals| ==> FromEmission(s, st, f, ratio, arrivals[i])
    requires p == ParityFlags(|Emitted(s, st, f, ratio)| - PacketCount(|f.data|), arrivals) && SomeKept(p)
    requires Relit(r, arrivals, |p|, st.fecGroupId % SLOTS)
    ensures var t, u, sealed := PartSlots(r, arrivals), st.fecGroupId % SLOTS, Sealed(s, st, f);
      && StoredOver(t[u], r.slots[u], sealed, |p|, ShardSize(sealed), p)
      && forall j :: 0 <= j < SLOTS && j != u ==> t[j] == Flush(Led(r, arrivals)).0[j]
  {
    hide Emitted, PacketCount, Fits, Sealed, ShardSize, ParityFlags, SlotsAfter, StoredOver, SomeKept, FromEmission,
      ValidSlot, Flush, Lawful, MarkUsed;
    var h, u, m, sealed := Lead(arrivals), st.fecGroupId % SLOTS, |p|, Sealed(s, st, f);
    var lead, rest, led := arrivals[..h], arrivals[h..], Led(r, arrivals);
    ValidSlots(r);
    OwnParityOnly(s, st, f, ratio, r.slots, lead);
    OwnParityOnly(s, st, f, ratio, Flush(led).0, rest);
    assert lead + rest == arrivals;
    ParityFlagsAppend(m, lead, rest);
    FlushMarks(led, u);
    StoredThroughFlush(r.slots[u], led.slots[u], Flush(led).0[u], PartSlots(r, arrivals)[u], sealed, m,
                       ShardSize(sealed), ParityFlags(m, lead), ParityFlags(m, rest), p);
  }

  // Parity in front of the frame's first data packet touches the own slot only.
  lemma {:induction false} LedSlots(s: Stream, st: SenderState, f: Frame, ratio: real, r: State,
                                    arrivals: seq<Arrival>)
    requires CipherOk(s) && Fits(f) && Valid(r)
    requires forall i :: 0 <= i < |arrivals| ==> FromEmission(s, st, f, ratio, arrivals[i])
    ensures forall j :: 0 <= j < SLOTS && j != st.fecGroupId % SLOTS ==> Led(r, arrivals).slots[j] == r.slots[j]
  {
    hide Emitted, PacketCount, Fits, Sealed, ShardSize, ParityFlags, SlotsAfter, StoredOver, SomeKept, FromEmission,
      ValidSlot, Lawful;
    ValidSlots(r);
    OwnParityOnly(s, st, f, ratio, r.slots, arrivals[..Lead(arrivals)]);
  }

  // Unencrypted, and with every leftover flag overwritten, the slot then holds exactly the frame's own parity.
  lemma {:induction false} PlainOwnSlot(s: Stream, st: SenderState, f: Frame, ratio: real, r: State,
                                        arrivals: seq<Arrival>, p: seq<bool>)
    requires s.crypto.None? && Fits(f) && PacketCount(|f.data|) >= 2 && Valid(r)
    requires forall i :: 0 <= i < |arrivals| ==> FromEmission(s, st, f, ratio, arrivals[i])
    requires p == ParityFlags(|Emitted(s, st, f, ratio)| - PacketCount(|f.data|), arrivals) && SomeKept(p)
    requires Relit(r, arrivals, |p|, st.fecGroupId % SLOTS)
    requires Covered(r.slots[st.fecGroupId % SLOTS], |p|, MAX_PAYLOAD, p)
    ensures var t, u := PartSlots(r, arrivals), st.fecGroupId % SLOTS;
      && OwnSlot(t[u], Chunks(f.data), |p|, MAX_PAYLOAD, p)
      && forall j :: 0 <= j < SLOTS && j != u ==> t[j] == Flush(Led(r, arrivals)).0[j]
  {
    hide Emitted, PacketCount, Fits, Chunks, Sealed, ShardSize, ParityFlags, PartSlots, OwnSlot, StoredOver, Covered,
      SomeKept, FromEmission, ValidSlot, Flush, Relit;
    var u := st.fecGroupId % SLOTS;
    OwnParityAfter(s, st, f, ratio, r, arrivals, p);
    PlainShards(s, st, f);
    CoveredSlotIsOwn(PartSlots(r, arrivals)[u], r.slots[u], Chunks(f.data), |p|, MAX_PAYLOAD, p);
  }

  // Some data packets of a frame arrive, in any order and with duplicates, mixed with its parity packets, and
  // no more data packets are missing than parity packets arrived. A frame still pending is flushed by the first of
  // them. Then nothing is delivered yet, and the first data packet with another frame number makes the receiver
  // deliver the frame: its bytes, followed by zeros only when the last packet was among the missing ones.
  // What the parity slots must look like: none before the frame's own slot is usable for the frame once that flush
  // is over, which may also have used the own slot only if own parity arrives later; and the arriving parity
  // overwrites whatever earlier groups left flagged in the own slot.
  lemma {:induction false} RecoveryDelivers(s: Stream, st: SenderState, f: Frame, ratio: real, r: State,
                                            arrivals: seq<Arrival>, next: Arrival)
    requires s.crypto.None? && Fits(f) && Valid(r) && Free(r, f)
    requires forall i :: 0 <= i < |arrivals| ==> FromEmission(s, st, f, ratio, arrivals[i])
    requires var k, m := PacketCount(|f.data|), |Emitted(s, st, f, ratio)| - PacketCount(|f.data|);
      var flags, u := Flags(k, arrivals), st.fecGroupId % SLOTS;
      && SomeKept(flags) && !All(flags)
      && k - Count(flags, k) <= Count(ParityFlags(m, arrivals), m)
      && Covered(r.slots[u], m, MAX_PAYLOAD, ParityFlags(m, arrivals))
      && Relit(r, arrivals, m, u)
      && (forall i :: 0 <= i < u ==> !Serves(Flush(Led(r, arrivals)).0[i], k, Count(flags, k)))
    requires !IsParity(next) && next.packet.hdr.frameNumber != f.number % 0x1_0000
    ensures var flags := Flags(PacketCount(|f.data|), arrivals);
      && Run(None, r, arrivals).1 == Flush(Led(r, arrivals)).1
      && var d := Step(None, Run(None, r, arrivals).0, next).1;
         d != [] && d[0] == RebuiltDelivery(f, flags, FirstAt(arrivals))
    ensures PaddingOf(f, Flags(PacketCount(|f.data|), arrivals)) <= MAX_PAYLOAD - 1
  {
    hide Step, Run, Flags, ParityFlags, IsParity, OwnSlot, Covered, Serves, PacketCount, Emitted, FirstAt, Chunks,
      Count, PartSlots, RebuiltDelivery, FromEmission, PaddingOf, Fits, Tracking, SomeKept, All, Flush, Led, Relit;
    var k, m := PacketCount(|f.data|), |Emitted(s, st, f, ratio)| - PacketCount(|f.data|);
    var flags, p, u := Flags(k, arrivals), ParityFlags(m, arrivals), st.fecGroupId % SLOTS;
    FittingCount(f);
    SomeMissing(flags);
    SomeArrived(p);
    PartOfFrame(s, st, f, ratio, r, arrivals);
    PlainOwnSlot(s, st, f, ratio, r, arrivals, p);
    CodecFits(s, st, f, ratio);
    TrackingCounts(ImageOf(f), flags, FirstAt(arrivals));
    FlushDelivers(Run(None, r, arrivals).0, f, flags, FirstAt(arrivals), m, p, u, next);
    PaddingBound(f, flags);
  }

  // On a blank receiver all that about the flush holds.
  lemma {:induction false} BlankIsRelit(r: State, arrivals: seq<Arrival>, m: nat, u: nat)
    requires Valid(r) && r.current == BLANK && u < SLOTS
    ensures Relit(r, arrivals, m, u) && Flush(Led(r, arrivals)).0 == Led(r, arrivals).slots
  {
    hide Flush, Led;
    BlankFlush(r, arrivals);
  }

  // What a lossy stream delivers besides the complete frames: whatever a part flushes is the one frame received in
  // part before it, and its packets are right exactly when the slot used holds parity of its own chunks.
  lemma {:induction false} FlushedBytes(s: Stream, st: SenderState, jobs: seq<Job>, r: State,
                                        arrivals: seq<seq<Arrival>>, keeps: seq<seq<bool>>, parts: seq<seq<Arrival>>,
                                        n: nat) returns (i: nat)
    requires CipherOk(s) && Valid(r) && r.current == BLANK && Lossy(s, st, jobs, arrivals, keeps, parts)
    requires n < |jobs| && Flushed(r, Images(jobs), parts, n) != []
    ensures i < n && NextAfterPartial(keeps, i, n)
    ensures var led, chunks := Led(StateAfter(r, Images(jobs), parts, n), parts[n]), Chunks(jobs[i].frame.data);
      var c, d, u := led.current, Recover(led).current, FirstUsable(led.current, led.slots, 0);
      && u < SLOTS && |chunks| == c.totalPackets && c.received == keeps[i]
      && Flushed(r, Images(jobs), parts, n) == [Assembled(d)]
      && (WithinField(|chunks|, led.slots[u].parityShardCount) ==>
          && |d.packets| == |chunks|
          && ((forall l :: 0 <= l < |chunks| ==> Restores(d.packets[l], chunks[l])) <==>
              && ParityMatches(c, led.slots[u], chunks)
              && forall l :: 0 <= l < |chunks| && !c.received[l] ==> |chunks[l]| <= RecoverySize(c, led.slots[u])))
  {
    hide HasData, All, SomeKept, Flush, StateAfter, PendingAfter, Holding, FirstAt, Led, Fits, Lossy, PartFlags,
      Recover, FirstUsable, Assembled, Restores, ParityMatches, RecoverySize, WithinField, Valid, NextAfterPartial,
      Tracking, ImageOf;
    LossyParts(s, st, jobs, arrivals, keeps, parts);
    LossyMeans(s, st, jobs, arrivals, keeps, parts);
    i := FlushedOrigin(r, jobs, keeps, parts, n);
    var led := Led(StateAfter(r, Images(jobs), parts, n), parts[n]);
    PendingIs(r, Images(jobs), parts, n);
    LedKeepsPending(StateAfter(r, Images(jobs), parts, n), parts[n]);
    HoldingTracks(ImageOf(jobs[i].frame), keeps[i], FirstAt(parts[i]));
    FlushedPending(led, jobs[i].frame, keeps[i], FirstAt(parts[i]));
  }

  lemma {:induction false} HoldingTracks(g: Image, f: seq<bool>, at: int)
    requires |f| == |g.chunks| && !All(f)
    ensures Holding(g, f, at) == Tracking(g, f, at)
  {}

  lemma {:induction false} FlushedPending(led: State, f: Frame, flags: seq<bool>, at: int)
    requires Fits(f) && Valid(led) && |flags| == |ImageOf(f).chunks| && Flush(led).1 != []
    requires led.current == Tracking(ImageOf(f), flags, at)
    ensures var chunks := Chunks(f.data);
      var c, d, u := led.current, Recover(led).current, FirstUsable(led.current, led.slots, 0);
      && u < SLOTS && |chunks| == c.totalPackets && c.received == flags
      && Flush(led).1 == [Assembled(d)]
      && (WithinField(|chunks|, led.slots[u].parityShardCount) ==>
          && |d.packets| == |chunks|
          && ((forall l :: 0 <= l < |chunks| ==> Restores(d.packets[l], chunks[l])) <==>
              && ParityMatches(c, led.slots[u], chunks)
              && forall l :: 0 <= l < |chunks| && !c.received[l] ==> |chunks[l]| <= RecoverySize(c, led.slots[u])))
  {
    hide Flush, Fits, Recover, FirstUsable, Assembled, Restores, ParityMatches, RecoverySize, WithinField, Tracking;
    FlushedIsPending(led);
    UnusableFlush(led);
    FlushAttempt(led);
    TrackingHolds(ImageOf(f), flags, at);
    TrackingCounts(ImageOf(f), flags, at);
    PendingOutcome(led, f, flags, at);
  }

  lemma {:induction false} KindsDiffer(crypto: Option<Cipher>, a: Arrival, g: Image)
    ensures IsOf(crypto, a, g) ==> !IsParity(a)
  {}

  lemma {:induction false} SomeArrived(p: seq<bool>)
    ensures Count(p, |p|) > 0 ==> SomeKept(p)
  {
    if !SomeKept(p) { CountFalse(p, |p|); }
  }

  lemma {:induction false} CodecFits(s: Stream, st: SenderState, f: Frame, ratio: real)
    requires Fits(f) && |Emitted(s, st, f, ratio)| > PacketCount(|f.data|)
    ensures |Emitted(s, st, f, ratio)| <= 255
  {
    ParityFieldsSurvive(s, st, f, ratio, PacketCount(|f.data|));
  }

  lemma {:induction false} PaddingBound(f: Frame, flags: seq<bool>)
    requires Fits(f) && |flags| == PacketCount(|f.data|)
    ensures PaddingOf(f, flags) <= MAX_PAYLOAD - 1
  {
    FittingCount(f);
    ChunkSizes(f.data, |flags| - 1);
  }
}
