// Why recovery never works on an encrypted stream: parity is computed over ciphertexts, which are longer than
// the payloads that the receiver keeps.
module EncryptedRecovery {
  import opened Wrappers
  import opened Bytes
  import opened LinearAlgebra
  import opened ErasureCode
  import opened VideoPackets
  import opened VideoSending
  import opened VideoReceiving
  import opened FrameTracking
  import opened FrameRuns
  import opened VideoPipeline
  import opened FrameLimits
  import opened Recovery
  import opened RecoveryDelivery

  const TAG_SIZE: nat := 16

  // AES-GCM appends its tag to what it encrypts.
  ghost predicate Tagged(c: Cipher) {
    forall n: Nonce, p: seq<Byte> :: |c.encrypt(n, p)| == |p| + TAG_SIZE
  }

  lemma {:induction false} SealedSize(crypto: Option<Cipher>, pkt: Packet)
    requires crypto.Some? && Tagged(crypto.value)
    ensures |Seal(crypto, pkt).payload| == |pkt.payload| + TAG_SIZE
  {}

  // The shards that parity is computed over are longer than any payload.
  lemma {:induction false} EncryptedShardSize(s: Stream, st: SenderState, f: Frame)
    requires s.crypto.Some? && Tagged(s.crypto.value) && Fits(f) && PacketCount(|f.data|) >= 2
    ensures ShardSize(Payloads(DataPackets(s, st, f))) == MAX_PAYLOAD + TAG_SIZE
  {
    hide Seal, PacketCount, Chunk, Tagged;
    var sealed := Payloads(DataPackets(s, st, f));
    FullSize(f);
    FirstIsFull(f);
    forall i | 0 <= i < |sealed| ensures |sealed[i]| == |Chunks(f.data)[i]| + TAG_SIZE {
      SealedSize(s.crypto, PlainPacket(s, st, f, i));
    }
  }

  lemma {:induction false} FirstIsFull(f: Frame)
    requires Fits(f) && PacketCount(|f.data|) >= 2
    ensures |Chunks(f.data)[0]| == MAX_PAYLOAD
  {
    ChunkSizes(f.data, 0);
    ChunksPartitionTheFrame(f.data);
  }

  // So is every parity packet of an encrypted frame.
  lemma {:induction false} EncryptedParitySize(s: Stream, st: SenderState, f: Frame, ratio: real, i: nat)
    requires s.crypto.Some? && Tagged(s.crypto.value) && Fits(f) && PacketCount(|f.data|) >= 2
    requires PacketCount(|f.data|) <= i < |Emitted(s, st, f, ratio)|
    ensures |Emitted(s, st, f, ratio)[i].payload| == MAX_PAYLOAD + TAG_SIZE
  {
    hide *;
    var n, data := PacketCount(|f.data|), DataPackets(s, st, f);
    EncryptedShardSize(s, st, f);
    EmittedParity(s, st, f, ratio, i);
    FecPayload(s, Advance(st, n), data, ratio, i - n, Payloads(data), MAX_PAYLOAD + TAG_SIZE);
    ParitySize(|data|, |FecPackets(s, Advance(st, n), data, ratio)|, Payloads(data), MAX_PAYLOAD + TAG_SIZE, i - n);
  }

  lemma {:induction false} ConcatLonger(a: seq<Vector>, b: seq<Vector>)
    requires |a| == |b| && forall i :: 0 <= i < |a| ==> |a[i]| >= |b[i]|
    ensures |Concat(a)| >= |Concat(b)|
    ensures (exists i :: 0 <= i < |a| && |a[i]| > |b[i]|) ==> |Concat(a)| > |Concat(b)|
  {
    if a != [] {
      var n := |a| - 1;
      ConcatLonger(a[..n], b[..n]);
      if i :| 0 <= i < |a| && |a[i]| > |b[i]| {
        assert i < n ==> |a[..n][i]| > |b[..n][i]|;
      }
    }
  }

  // A stream encrypted by a cipher with a tag.
  ghost predicate Encrypts(s: Stream) {
    s.crypto.Some? && Lawful(s.crypto.value) && Tagged(s.crypto.value)
  }

  // ----- what the slots hold

  // Live parity for two packets or more comes with a size that no payload reaches.
  predicate TooLarge(slot: FecSlot) {
    slot.isRs ==>
      && slot.dataShardCount + slot.parityShardCount <= 255
      && (slot.dataShardCount >= 2 ==> slot.shardSize >= MAX_PAYLOAD + TAG_SIZE)
  }

  predicate AllTooLarge(slots: seq<FecSlot>) { forall j :: 0 <= j < |slots| ==> TooLarge(slots[j]) }

  // A packet that keeps them so.
  predicate Oversized(a: Arrival) {
    IsParity(a) ==>
      && a.packet.hdr.totalPackets + a.packet.hdr.packetIndex <= 255
      && (a.packet.hdr.totalPackets >= 2 ==> |a.packet.payload| >= MAX_PAYLOAD + TAG_SIZE)
  }

  // Every packet of an encrypted frame is such a packet.
  lemma {:induction false} EmissionIsOversized(s: Stream, st: SenderState, f: Frame, ratio: real, a: Arrival)
    requires Encrypts(s) && Fits(f) && FromEmission(s, st, f, ratio, a)
    ensures Oversized(a)
  {
    hide Emitted, PacketCount, DataPackets, IsOf, Lawful, Tagged, Fits, IsParity, ImageOf;
    var i := IndexIn(a.packet, Emitted(s, st, f, ratio));
    if i < PacketCount(|f.data|) {
      DataFirst(s, st, f, ratio, i);
      SentIsOf(s, st, f, i, a);
      DataIsNotParity(s.crypto, a, ImageOf(f));
    } else {
      ParityFieldsSurvive(s, st, f, ratio, i);
      if PacketCount(|f.data|) >= 2 { EncryptedParitySize(s, st, f, ratio, i); }
    }
  }

  lemma {:induction false} SlotsStayTooLarge(slots: seq<FecSlot>, arrivals: seq<Arrival>)
    requires |slots| == SLOTS && forall j :: 0 <= j < SLOTS ==> ValidSlot(slots[j])
    requires AllTooLarge(slots) && forall i :: 0 <= i < |arrivals| ==> Oversized(arrivals[i])
    ensures AllTooLarge(SlotsAfter(slots, arrivals))
  {
    hide StoreParity, TooLarge, Oversized, ValidSlot;
    if arrivals != [] {
      var a := arrivals[|arrivals| - 1];
      SlotsStayTooLarge(slots, arrivals[..|arrivals| - 1]);
      if IsParity(a) {
        StoredTooLarge(SlotsAfter(slots, arrivals[..|arrivals| - 1])[a.packet.hdr.fecGroupId % SLOTS], a);
      }
    }
  }

  lemma {:induction false} StoredTooLarge(slot: FecSlot, a: Arrival)
    requires ValidSlot(slot) && IsParity(a) && Oversized(a)
    ensures TooLarge(StoreParity(slot, a.packet.hdr, a.packet.payload))
  {}

  // ----- what recovery makes of them

  // Recovery from such a slot never gives the frame back, whichever of its packets are missing: what it
  // assembles is longer than the frame.
  lemma {:induction false} EncryptedRecoveryIsTooLong(st: State, f: Frame)
    requires Fits(f) && Valid(st) && Holds(st.current, Chunks(f.data))
    requires FirstUsable(st.current, st.slots, 0) < |st.slots|
    requires var s := st.slots[FirstUsable(st.current, st.slots, 0)];
      s.shardSize >= MAX_PAYLOAD + TAG_SIZE && WithinField(PacketCount(|f.data|), s.parityShardCount)
    ensures var d := Recover(st).current;
      d.receivedCount == d.totalPackets && |Assembled(d).data| > |f.data|
  {
    hide Recover, ParityMatches, Chunk, PacketCount, WithinField;
    var c := st.current;
    var s := st.slots[FirstUsable(c, st.slots, 0)];
    var chunks := Chunks(f.data);
    ChunksPartitionTheFrame(f.data);
    FittingCount(f);
    RecoveryUpToSize(st, chunks);
    var d := Recover(st).current;
    assert RecoverySize(c, s) >= MAX_PAYLOAD + TAG_SIZE;
    CountFull(c.received, c.totalPackets);
    var i :| 0 <= i < c.totalPackets && !c.received[i];
    forall j | 0 <= j < |chunks| ensures |chunks[j]| <= MAX_PAYLOAD { ChunkSizes(f.data, j); }
    assert |d.packets[i]| > |chunks[i]|;
    ConcatLonger(d.packets, chunks);
  }

  // Whatever a receiver holds of a frame, what it flushes from such slots is longer than the frame; and it does
  // flush something if any slot is usable.
  lemma {:induction false} FlushIsTooLong(st: State, f: Frame, flags: seq<bool>, at: int)
    requires Fits(f) && Valid(st) && AllTooLarge(st.slots) && |flags| == |ImageOf(f).chunks|
    requires st.current == Tracking(ImageOf(f), flags, at)
    ensures forall d :: d in Flush(st).1 ==> |d.data| > |f.data|
    ensures 0 < Count(flags, |flags|) < |flags| && FirstUsable(st.current, st.slots, 0) < SLOTS ==> |Flush(st).1| == 1
  {
    hide Recover, PacketCount, Tracking, Assembled, FirstUsable, Fits, Chunks, Holds;
    var u := FirstUsable(st.current, st.slots, 0);
    FittingCount(f);
    TrackingHolds(ImageOf(f), flags, at);
    TrackingCounts(ImageOf(f), flags, at);
    if 0 < st.current.receivedCount < st.current.totalPackets {
      FlushAttempt(st);
      if u < SLOTS {
        assert TooLarge(st.slots[u]);
        EncryptedRecoveryIsTooLong(st, f);
      }
    }
  }

  lemma {:induction false} CountMore(p: seq<bool>, q: seq<bool>, n: nat)
    requires n <= |p| && n <= |q| && forall i :: 0 <= i < n && p[i] ==> q[i]
    ensures Count(p, n) <= Count(q, n)
  {
    if n > 0 { CountMore(p, q, n - 1); }
  }

  // Enough packets make the frame's slot usable, whatever it still holds.
  lemma {:induction false} EnoughIsUsable(c: PendingFrame, slots: seq<FecSlot>, u: nat, was: FecSlot,
                                          sealed: seq<Vector>, m: nat, size: nat, p: seq<bool>)
    requires ValidPending(c) && u < |slots| && forall j :: 0 <= j < |slots| ==> ValidSlot(slots[j])
    requires |p| == m && StoredOver(slots[u], was, sealed, m, size, p) && c.totalPackets == |sealed|
    requires c.receivedCount < |sealed| <= c.receivedCount + Count(p, m)
    ensures FirstUsable(c, slots, 0) < |slots|
  {
    hide Parity;
    CountMore(p, slots[u].parityPresent, m);
    assert Usable(c, slots[u]);
  }

  lemma {:induction false} FlushKeepsTooLarge(st: State)
    requires Valid(st) && AllTooLarge(st.slots)
    ensures AllTooLarge(Flush(st).0)
  {
    hide Decoded, FirstUsable;
  }

  lemma {:induction false} LedTooLarge(st: State, part: seq<Arrival>)
    requires Valid(st) && AllTooLarge(st.slots) && forall i :: 0 <= i < |part| ==> Oversized(part[i])
    ensures AllTooLarge(Led(st, part).slots)
  {
    hide AllTooLarge, Oversized;
    SlotsStayTooLarge(st.slots, part[..Lead(part)]);
  }

  lemma {:induction false} PartStaysTooLarge(st: State, part: seq<Arrival>)
    requires Valid(st) && AllTooLarge(st.slots) && forall i :: 0 <= i < |part| ==> Oversized(part[i])
    ensures AllTooLarge(PartSlots(st, part))
  {
    hide AllTooLarge, Oversized, Led, Flush, SlotsAfter, ValidPending;
    LedTooLarge(st, part);
    FlushKeepsTooLarge(Led(st, part));
    SlotsStayTooLarge(Flush(Led(st, part)).0, part[Lead(part)..]);
  }

  // Of a frame whose packets arrive in part, nothing is delivered on the way, save what was pending before, and
  // all that the next frame then flushes is longer than the frame. With enough packets, which should repair it,
  // that is always the outcome.
  lemma {:induction false} EncryptedLossIsNotRepaired(s: Stream, st: SenderState, f: Frame, ratio: real, r: State,
                                                      arrivals: seq<Arrival>)
    requires Encrypts(s) && Fits(f) && Valid(r) && Free(r, f) && AllTooLarge(r.slots)
    requires forall i :: 0 <= i < |arrivals| ==> FromEmission(s, st, f, ratio, arrivals[i])
    requires !All(Flags(PacketCount(|f.data|), arrivals))
    ensures var mid, kept := Run(s.crypto, r, arrivals).0, SomeKept(Flags(PacketCount(|f.data|), arrivals));
      && Run(s.crypto, r, arrivals).1 == (if kept then Flush(Led(r, arrivals)).1 else [])
      && AllTooLarge(mid.slots)
      && (kept || r.current == BLANK ==> forall d :: d in Flush(mid).1 ==> |d.data| > |f.data|)
    ensures var k, m := PacketCount(|f.data|), |Emitted(s, st, f, ratio)| - PacketCount(|f.data|);
      var flags := Flags(k, arrivals);
      SomeKept(flags) && k - Count(flags, k) <= Count(ParityFlags(m, arrivals), m)
        && Relit(r, arrivals, m, st.fecGroupId % SLOTS) ==>
        |Flush(Run(s.crypto, r, arrivals).0).1| == 1
  {
    hide Run, Flags, All, FromEmission, PacketCount, Tracking, SlotsAfter, Fits, FirstAt, Lawful, Tagged, ImageOf,
      SomeKept, AllTooLarge, Flush, Oversized, ParityFlags, Emitted, Count, FirstUsable, Sealed, StoredOver,
      PartSlots, Led, Relit;
    PartOfFrame(s, st, f, ratio, r, arrivals);
    forall i | 0 <= i < |arrivals| ensures Oversized(arrivals[i]) { EmissionIsOversized(s, st, f, ratio, arrivals[i]); }
    ValidSlots(r);
    var mid, flags := Run(s.crypto, r, arrivals).0, Flags(PacketCount(|f.data|), arrivals);
    if SomeKept(flags) {
      PartStaysTooLarge(r, arrivals);
      FlushIsTooLong(mid, f, flags, FirstAt(arrivals));
      SomeMissing(flags);
      if Relit(r, arrivals, |Emitted(s, st, f, ratio)| - PacketCount(|f.data|), st.fecGroupId % SLOTS) {
        EnoughArrived(s, st, f, ratio, r, arrivals, mid.current);
      }
    } else {
      SlotsStayTooLarge(r.slots, arrivals);
      if r.current == BLANK { NothingToFlush(mid); }
    }
  }

  lemma {:induction false} EnoughArrived(s: Stream, st: SenderState, f: Frame, ratio: real, r: State,
                                         arrivals: seq<Arrival>, c: PendingFrame)
    requires CipherOk(s) && Fits(f) && Valid(r)
    requires forall i :: 0 <= i < |arrivals| ==> FromEmission(s, st, f, ratio, arrivals[i])
    requires |ImageOf(f).chunks| == |Flags(PacketCount(|f.data|), arrivals)|
    requires c == Tracking(ImageOf(f), Flags(PacketCount(|f.data|), arrivals), FirstAt(arrivals))
    requires Relit(r, arrivals, |Emitted(s, st, f, ratio)| - PacketCount(|f.data|), st.fecGroupId % SLOTS)
    ensures var k, m := PacketCount(|f.data|), |Emitted(s, st, f, ratio)| - PacketCount(|f.data|);
      var have := Count(Flags(k, arrivals), k);
      && ValidPending(c)
      && (have < k <= have + Count(ParityFlags(m, arrivals), m) ==>
            FirstUsable(c, PartSlots(r, arrivals), 0) < SLOTS)
  {
    hide Flags, FromEmission, PacketCount, Tracking, SlotsAfter, Fits, FirstAt, Lawful, ImageOf, ParityFlags, Emitted,
      Count, FirstUsable, Sealed, StoredOver, SomeKept, PartSlots, Relit, Valid, ValidSlot;
    var k, m := PacketCount(|f.data|), |Emitted(s, st, f, ratio)| - PacketCount(|f.data|);
    var flags, p, u, sealed := Flags(k, arrivals), ParityFlags(m, arrivals), st.fecGroupId % SLOTS, Sealed(s, st, f);
    TrackingHolds(ImageOf(f), flags, FirstAt(arrivals));
    TrackingCounts(ImageOf(f), flags, FirstAt(arrivals));
    SomeArrived(p);
    ValidSlots(r);
    if Count(flags, k) < k <= Count(flags, k) + Count(p, m) {
      OwnParityAfter(s, st, f, ratio, r, arrivals, p);
      EnoughIsUsable(c, PartSlots(r, arrivals), u, r.slots[u], sealed, m, ShardSize(sealed), p);
    }
  }

  // ----- whole streams

  // A packet of the stream.
  ghost predicate FromStream(s: Stream, st: SenderState, jobs: seq<Job>, a: Arrival) {
    exists j :: 0 <= j < |jobs| && a.packet in SentFor(s, st, jobs, j)
  }

  lemma {:induction false} StreamIsOversized(s: Stream, st: SenderState, jobs: seq<Job>, a: Arrival)
    requires Encrypts(s) && (forall j :: 0 <= j < |jobs| ==> Fits(jobs[j].frame)) && FromStream(s, st, jobs, a)
    ensures Oversized(a)
  {
    hide Emitted, Oversized, Encrypts, Fits, StateBefore;
    var j :| 0 <= j < |jobs| && a.packet in SentFor(s, st, jobs, j);
    EmissionIsOversized(s, StateBefore(s, st, jobs, j), jobs[j].frame, jobs[j].ratio, a);
  }

  lemma {:induction false} StreamStaysTooLarge(st: State, images: seq<Image>, parts: seq<seq<Arrival>>, n: nat)
    requires Valid(st) && AllTooLarge(st.slots) && n <= |parts| == |images|
    requires forall j, i :: 0 <= j < |parts| && 0 <= i < |parts[j]| ==> Oversized(parts[j][i])
    ensures AllTooLarge(StateAfter(st, images, parts, n).slots)
  {
    hide AllTooLarge, Oversized, Led, Flush, SlotsAfter, Holding, HasData, Flags, FirstAt, ValidPending;
    if n > 0 {
      StreamStaysTooLarge(st, images, parts, n - 1);
      var before, part := StateAfter(st, images, parts, n - 1), parts[n - 1];
      if HasData(part) {
        PartStaysTooLarge(before, part);
      } else {
        SlotsStayTooLarge(before.slots, part);
      }
    }
  }

  // An encrypted stream delivers the frames all of whose packets were kept, and in between only frames
  // received in part, each longer than it was sent: recovery never gives one back.
  lemma {:induction false} EncryptedStream(s: Stream, st: SenderState, jobs: seq<Job>, r: State,
                                           arrivals: seq<seq<Arrival>>, keeps: seq<seq<bool>>,
                                           parts: seq<seq<Arrival>>)
    requires Encrypts(s) && Valid(r) && r.current == BLANK && AllTooLarge(r.slots)
    requires Lossy(s, st, jobs, arrivals, keeps, parts)
    requires forall j, i :: 0 <= j < |parts| && 0 <= i < |parts[j]| ==> FromStream(s, st, jobs, parts[j][i])
    ensures Run(s.crypto, r, Flatten(parts, |parts|)).1 == KeptAndFlushed(r, jobs, keeps, parts, |jobs|)
    ensures forall n, d :: 0 <= n < |jobs| && d in Flushed(r, Images(jobs), parts, n) ==>
      exists i :: 0 <= i < n && NextAfterPartial(keeps, i, n) && |d.data| > |jobs[i].frame.data|
  {
    hide Run, Flatten, KeptAndFlushed, Lossy, FromStream, AllTooLarge, NextAfterPartial, Flushed, Valid, Oversized,
      Fits, PartFlags, HasData, SomeKept, Lawful, Tagged;
    LossyChannel(s, st, jobs, r, arrivals, keeps, parts);
    LossyMeans(s, st, jobs, arrivals, keeps, parts);
    LossyParts(s, st, jobs, arrivals, keeps, parts);
    forall j, i | 0 <= j < |parts| && 0 <= i < |parts[j]| ensures Oversized(parts[j][i]) {
      StreamIsOversized(s, st, jobs, parts[j][i]);
    }
    forall n, d | 0 <= n < |jobs| && d in Flushed(r, Images(jobs), parts, n)
      ensures exists i :: 0 <= i < n && NextAfterPartial(keeps, i, n) && |d.data| > |jobs[i].frame.data|
    {
      var i := FlushedOrigin(r, jobs, keeps, parts, n);
      FlushedTooLong(r, jobs, keeps, parts, n, i);
    }
  }

  lemma {:induction false} FlushedTooLong(r: State, jobs: seq<Job>, keeps: seq<seq<bool>>, parts: seq<seq<Arrival>>,
                                          n: nat, i: nat)
    requires Valid(r) && r.current == BLANK && AllTooLarge(r.slots) && i < n < |jobs| == |keeps| == |parts|
    requires forall j :: 0 <= j < |jobs| ==> Fits(jobs[j].frame) && PartFlags(Images(jobs), parts, j) == keeps[j]
    requires forall j, l :: 0 <= j < |parts| && 0 <= l < |parts[j]| ==> Oversized(parts[j][l])
    requires PendingFrom(Images(jobs), parts, n, i)
    ensures forall d :: d in Flushed(r, Images(jobs), parts, n) ==> |d.data| > |jobs[i].frame.data|
  {
    hide AllTooLarge, Valid, Oversized, Fits, PartFlags, HasData, FirstAt, All, Holding, Tracking, Led, Flush,
      StateAfter, PendingAfter, ImageOf;
    var images := Images(jobs);
    var before := StateAfter(r, images, parts, n);
    PendingIs(r, images, parts, n);
    StreamStaysTooLarge(r, images, parts, n);
    LedTooLarge(before, parts[n]);
    LedKeepsPending(before, parts[n]);
    HoldingTracks(images[i], keeps[i], FirstAt(parts[i]));
    FlushIsTooLong(Led(before, parts[n]), jobs[i].frame, keeps[i], FirstAt(parts[i]));
  }
}
