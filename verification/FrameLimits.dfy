// Exactly which frames make it through a lossless channel, and how the sender numbers its packets.
module FrameLimits {
  import opened Wrappers
  import opened Bytes
  import opened LinearAlgebra
  import opened ErasureCode
  import opened VideoPackets
  import opened VideoSending
  import opened VideoReceiving
  import opened FrameTracking
  import opened VideoPipeline

  // ----- frames outside the limits

  lemma {:induction false} ConcatBound(packets: seq<Vector>, size: nat)
    requires forall i :: 0 <= i < |packets| ==> |packets[i]| <= size
    ensures |Concat(packets)| <= |packets| * size
  {
    if packets != [] {
      ConcatBound(packets[..|packets| - 1], size);
      assert |packets| * size == (|packets| - 1) * size + size;
    }
  }

  // The pending frame is blank, or all its packets are small and carry the given header fields.
  ghost predicate Small(c: PendingFrame, number: u16, total: u8) {
    ValidPending(c) &&
    (c == BLANK ||
      (c.frameNumber == number && c.totalPackets == total &&
       forall i :: 0 <= i < total ==> |c.packets[i]| <= MAX_PAYLOAD))
  }

  lemma {:induction false} StoreIsSmall(c: PendingFrame, number: u16, total: u8, idx: nat, payload: seq<Byte>)
    requires ValidPending(c) && c.frameNumber == number && c.totalPackets == total && |payload| <= MAX_PAYLOAD
    requires forall i :: 0 <= i < total ==> |c.packets[i]| <= MAX_PAYLOAD
    ensures Small(Store(c, idx, payload), number, total)
    ensures |Assembled(Store(c, idx, payload)).data| <= 255 * MAX_PAYLOAD
  {
    var d := Store(c, idx, payload);
    forall i | 0 <= i < total ensures |d.packets[i]| <= MAX_PAYLOAD {}
    ConcatBound(d.packets, MAX_PAYLOAD);
  }

  // A data packet of a single frame that carries at most one payload's worth.
  ghost predicate SmallPacket(crypto: Option<Cipher>, a: Arrival, number: u16, total: u8) {
    !IsParity(a) ==>
      && a.packet.hdr.frameNumber == number && a.packet.hdr.totalPackets == total
      && (Open(crypto, a.packet).Some? ==> |Open(crypto, a.packet).value| <= MAX_PAYLOAD)
  }

  lemma {:induction false} SmallStep(crypto: Option<Cipher>, st: State, a: Arrival, number: u16, total: u8)
    requires Valid(st) && Small(st.current, number, total) && SmallPacket(crypto, a, number, total)
    ensures Small(Step(crypto, st, a).0.current, number, total)
    ensures forall d :: d in Step(crypto, st, a).1 ==> |d.data| <= 255 * MAX_PAYLOAD
  {
    hide Store, Assembled, StoreFec;
    if !IsParity(a) && Open(crypto, a.packet).Some? {
      var hdr, payload := a.packet.hdr, Open(crypto, a.packet).value;
      var c := if StartsFrame(st.current, hdr) then Opened(hdr, a.at) else st.current;
      StoreIsSmall(c, number, total, hdr.packetIndex, payload);
    }
  }

  lemma {:induction false} SmallRun(crypto: Option<Cipher>, st: State, arrivals: seq<Arrival>, number: u16, total: u8)
    requires Valid(st) && Small(st.current, number, total)
    requires forall i :: 0 <= i < |arrivals| ==> SmallPacket(crypto, arrivals[i], number, total)
    ensures Small(Run(crypto, st, arrivals).0.current, number, total)
    ensures forall d :: d in Run(crypto, st, arrivals).1 ==> |d.data| <= 255 * MAX_PAYLOAD
  {
    hide Step, Small, SmallPacket, Valid;
    if arrivals != [] {
      var before, a := arrivals[..|arrivals| - 1], arrivals[|arrivals| - 1];
      SmallRun(crypto, st, before, number, total);
      SmallStep(crypto, Run(crypto, st, before).0, a, number, total);
    }
  }

  lemma {:induction false} DataIsSmall(s: Stream, st: SenderState, f: Frame, i: nat, a: Arrival)
    requires CipherOk(s) && i < PacketCount(|f.data|) && a.packet == Seal(s.crypto, PlainPacket(s, st, f, i))
    ensures SmallPacket(s.crypto, a, f.number % 0x1_0000, PacketCount(|f.data|) % 0x100)
  {
    assert i * MAX_PAYLOAD < |f.data|;
    OpenSeal(s.crypto, PlainPacket(s, st, f, i));
    hide Lawful, PacketCount, Open;
  }

  lemma {:induction false} SentIsSmall(s: Stream, st: SenderState, f: Frame, ratio: real, i: nat, a: Arrival)
    requires CipherOk(s) && i < |Emitted(s, st, f, ratio)| && a.packet == Emitted(s, st, f, ratio)[i]
    ensures SmallPacket(s.crypto, a, f.number % 0x1_0000, PacketCount(|f.data|) % 0x100)
  {
    hide FecPackets, Lawful, Share, Seal, PlainPacket, Open, PacketCount;
    if i >= PacketCount(|f.data|) {
      ParityIsParity(s, st, f, ratio, i);
    } else {
      DataIsSmall(s, st, f, i, a);
    }
  }

  // Sent alone over a lossless channel, a frame is delivered whole exactly when it has between 1 and
  // 255 * 1379 bytes: an empty frame sends nothing, and a longer one overflows the 8-bit packet count.
  lemma {:induction false} RoundTripIff(s: Stream, st: SenderState, f: Frame, ratio: real, r: State, part: seq<Arrival>)
    requires CipherOk(s) && Valid(r) && r.current == BLANK && Carry(part, Emitted(s, st, f, ratio))
    ensures Fits(f) <==> exists d :: d in Run(s.crypto, r, part).1 && d.data == f.data
    ensures Fits(f) ==> part != [] && Run(s.crypto, r, part).1 == [Intact(f, part[0].at)]
  {
    hide Step, Valid, Emitted, SmallPacket, Whole, Intact, Tidy, Concerns, HasData, FirstAt, Flags, All;
    if Fits(f) {
      FullPart(s, st, f, ratio, part);
      WholeIsIntact(f, part[0].at);
      OneFrame(s.crypto, r, ImageOf(f), part);
      IntactCarriesData(f, part[0].at);
      assert Run(s.crypto, r, part).1[0] == Intact(f, part[0].at);
    } else if f.data == [] {
      EmptySendsNothing(s, st, f, ratio);
    } else {
      forall i | 0 <= i < |part|
        ensures SmallPacket(s.crypto, part[i], f.number % 0x1_0000, PacketCount(|f.data|) % 0x100)
      {
        SentIsSmall(s, st, f, ratio, i, part[i]);
      }
      SmallRun(s.crypto, r, part, f.number % 0x1_0000, PacketCount(|f.data|) % 0x100);
    }
  }

  lemma {:induction false} IntactCarriesData(f: Frame, at: int)
    ensures Intact(f, at).data == f.data
  {}

  lemma {:induction false} EmptySendsNothing(s: Stream, st: SenderState, f: Frame, ratio: real)
    requires f.data == []
    ensures Emitted(s, st, f, ratio) == []
  {
    hide FecPackets;
    assert PacketCount(0) == 0;
  }

  // ----- numbering

  // Packet i of a frame's emission carries the i-th sequence number after the sender's.
  lemma {:induction false} EmissionNumbers(s: Stream, st: SenderState, f: Frame, ratio: real, i: nat)
    requires i < |Emitted(s, st, f, ratio)|
    ensures Emitted(s, st, f, ratio)[i].hdr.sequence == (st.sequence + i) % 0x1_0000
  {
    hide Share, PacketCount, Chunk, FecPackets, Parity, ShardSize;
    var n := PacketCount(|f.data|);
    if i >= n {
      var data := DataPackets(s, st, f);
      FecPacketAt(s, Advance(st, n), data, ratio, i - n);
      NumberedAfter(st, n, i - n);
      hide Numbered, DataPackets;
    }
  }

  // Everything sent for the first n frames, in order.
  ghost function SentSoFar(s: Stream, st: SenderState, jobs: seq<Job>, n: nat): seq<Packet>
    requires n <= |jobs|
  {
    if n == 0 then [] else SentSoFar(s, st, jobs, n - 1) + SentFor(s, st, jobs, n - 1)
  }

  lemma {:induction false} ModAdd(a: nat, b: nat, c: nat)
    ensures ((a + b) % 0x1_0000 + c) % 0x1_0000 == (a + (b + c)) % 0x1_0000
  {}

  // The packets carry consecutive sequence numbers from start on, modulo 2^16.
  ghost predicate NumberedFrom(packets: seq<Packet>, start: nat) {
    forall i :: 0 <= i < |packets| ==> packets[i].hdr.sequence == (start + i) % 0x1_0000
  }

  lemma {:induction false} NumberedConcat(a: seq<Packet>, b: seq<Packet>, start: nat)
    requires NumberedFrom(a, start) && NumberedFrom(b, (start + |a|) % 0x1_0000)
    ensures NumberedFrom(a + b, start)
  {
    forall i | |a| <= i < |a| + |b| ensures (a + b)[i].hdr.sequence == (start + i) % 0x1_0000 {
      assert (a + b)[i] == b[i - |a|];
      ModAdd(start, |a|, i - |a|);
    }
  }

  // Over any run of SendFrame calls the i-th packet emitted carries the i-th sequence number,
  // data and parity alike, and every frame gets the next parity group, modulo 2^8.
  lemma {:induction false} StreamNumbers(s: Stream, st: SenderState, jobs: seq<Job>, n: nat)
    requires n <= |jobs|
    ensures NumberedFrom(SentSoFar(s, st, jobs, n), st.sequence)
    ensures StateBefore(s, st, jobs, n).sequence == (st.sequence + |SentSoFar(s, st, jobs, n)|) % 0x1_0000
    ensures StateBefore(s, st, jobs, n).fecGroupId == (st.fecGroupId + n) % 0x100
  {
    hide Emitted, NumberedFrom, AfterFrame;
    if n == 0 {
      NoneNumbered(st.sequence);
    } else {
      StreamNumbers(s, st, jobs, n - 1);
      var before, last := SentSoFar(s, st, jobs, n - 1), SentFor(s, st, jobs, n - 1);
      var mid, job := StateBefore(s, st, jobs, n - 1), jobs[n - 1];
      FrameNumbers(s, mid, job.frame, job.ratio);
      NumberedConcat(before, last, st.sequence);
      StateAfterFrame(s, mid, job.frame, job.ratio, st, |before|, n - 1);
    }
  }

  lemma {:induction false} StateAfterFrame(s: Stream, mid: SenderState, f: Frame, ratio: real, start: SenderState,
                                           sent: nat, frames: nat)
    requires mid.sequence == (start.sequence + sent) % 0x1_0000 && mid.fecGroupId == (start.fecGroupId + frames) % 0x100
    ensures var after := AfterFrame(s, mid, f, ratio);
      && after.sequence == (start.sequence + (sent + |Emitted(s, mid, f, ratio)|)) % 0x1_0000
      && after.fecGroupId == (start.fecGroupId + (frames + 1)) % 0x100
  {
    hide Emitted;
    ModAdd(start.sequence, sent, |Emitted(s, mid, f, ratio)|);
  }

  lemma {:induction false} NoneNumbered(start: nat)
    ensures NumberedFrom([], start)
  {}

  lemma {:induction false} FrameNumbers(s: Stream, st: SenderState, f: Frame, ratio: real)
    ensures NumberedFrom(Emitted(s, st, f, ratio), st.sequence)
  {
    hide Emitted;
    forall i | 0 <= i < |Emitted(s, st, f, ratio)|
      ensures Emitted(s, st, f, ratio)[i].hdr.sequence == (st.sequence + i) % 0x1_0000
    {
      EmissionNumbers(s, st, f, ratio, i);
    }
  }

  // ----- nonces

  // Where packet c of frame j stands in the stream.
  ghost function Position(s: Stream, st: SenderState, jobs: seq<Job>, j: nat, c: nat): nat
    requires j < |jobs|
  {
    |SentSoFar(s, st, jobs, j)| + c
  }

  lemma {:induction false} SentAtPosition(s: Stream, st: SenderState, jobs: seq<Job>, j: nat, c: nat, n: nat)
    requires j < n <= |jobs| && c < |SentFor(s, st, jobs, j)|
    ensures var sent := SentSoFar(s, st, jobs, n);
      Position(s, st, jobs, j, c) < |sent| && sent[Position(s, st, jobs, j, c)] == SentFor(s, st, jobs, j)[c]
  {
    hide SentFor;
    if j < n - 1 { SentAtPosition(s, st, jobs, j, c, n - 1); }
  }

  lemma {:induction false} DataNonce(s: Stream, st: SenderState, f: Frame, ratio: real, c: nat)
    requires c < PacketCount(|f.data|)
    ensures PacketNonce(Emitted(s, st, f, ratio)[c].hdr) ==
      Nonce(s.ssrc, f.number % 0x1_0000, (st.sequence + c) % 0x1_0000)
  {
    hide PacketCount, FecPackets, Share, Chunk;
    assert Emitted(s, st, f, ratio)[c] == DataPackets(s, st, f)[c];
    SealedHeader(s.crypto, PlainPacket(s, st, f, c));
  }

  lemma {:induction false} SealedHeader(crypto: Option<Cipher>, pkt: Packet)
    ensures Seal(crypto, pkt).hdr == pkt.hdr
  {}

  lemma {:induction false} NonceAt(s: Stream, st: SenderState, jobs: seq<Job>, j: nat, c: nat)
    requires j < |jobs| && c < PacketCount(|jobs[j].frame.data|)
    ensures PacketNonce(SentFor(s, st, jobs, j)[c].hdr) ==
      Nonce(s.ssrc, jobs[j].frame.number % 0x1_0000, (st.sequence + Position(s, st, jobs, j, c)) % 0x1_0000)
  {
    hide PacketCount, Emitted, StateBefore, SentSoFar, NumberedFrom;
    DataNonce(s, StateBefore(s, st, jobs, j), jobs[j].frame, jobs[j].ratio, c);
    StreamNumbers(s, st, jobs, j);
    ModAdd(st.sequence, |SentSoFar(s, st, jobs, j)|, c);
  }

  lemma {:induction false} SameResidue(a: nat, x: nat, y: nat)
    ensures (a + x) % 0x1_0000 == (a + y) % 0x1_0000 <==> (x - y) % 0x1_0000 == 0
  {}

  // Over any run of SendFrame calls two data packets are sealed under the same nonce exactly when their frame
  // numbers agree modulo 2^16 and so do their positions in the stream.
  lemma {:induction false} NoncesRepeat(s: Stream, st: SenderState, jobs: seq<Job>, i: nat, c: nat, j: nat, d: nat)
    requires i < |jobs| && c < PacketCount(|jobs[i].frame.data|)
    requires j < |jobs| && d < PacketCount(|jobs[j].frame.data|)
    ensures
      PacketNonce(SentFor(s, st, jobs, i)[c].hdr) == PacketNonce(SentFor(s, st, jobs, j)[d].hdr) <==>
        && jobs[i].frame.number % 0x1_0000 == jobs[j].frame.number % 0x1_0000
        && (Position(s, st, jobs, i, c) - Position(s, st, jobs, j, d)) % 0x1_0000 == 0
  {
    hide PacketCount, SentFor, Position, PacketNonce;
    NonceAt(s, st, jobs, i, c);
    NonceAt(s, st, jobs, j, d);
    SameResidue(st.sequence, Position(s, st, jobs, i, c), Position(s, st, jobs, j, d));
  }

  // In particular no two data packets of one frame share a nonce.
  lemma {:induction false} NoncesDifferInFrame(s: Stream, st: SenderState, jobs: seq<Job>, j: nat, c: nat, d: nat)
    requires j < |jobs| && c < d < PacketCount(|jobs[j].frame.data|)
    ensures PacketNonce(SentFor(s, st, jobs, j)[c].hdr) != PacketNonce(SentFor(s, st, jobs, j)[d].hdr)
  {
    hide PacketCount, SentFor, SentSoFar, PacketNonce;
    NoncesRepeat(s, st, jobs, j, c, j, d);
  }

  // The codec sizes of every parity packet of a fitting frame survive their 8-bit header fields.
  lemma {:induction false} ParityFieldsSurvive(s: Stream, st: SenderState, f: Frame, ratio: real, i: nat)
    requires Fits(f) && PacketCount(|f.data|) <= i < |Emitted(s, st, f, ratio)|
    ensures var hdr := Emitted(s, st, f, ratio)[i].hdr;
      var k, m := PacketCount(|f.data|), |Emitted(s, st, f, ratio)| - PacketCount(|f.data|);
      && 1 <= k && 1 <= m && k + m <= 255
      && hdr.payloadType == FEC_TYPE && RsFlag(hdr.flags) && hdr.fecGroupId == st.fecGroupId
      && hdr.totalPackets == k && hdr.packetIndex == m && hdr.fecIndex == i - k
  {
    hide Emitted, PacketCount, FecPackets, DataPackets, Parity, ShardSize, Numbered, Fits, FecHeader, RsFlag;
    var n := PacketCount(|f.data|);
    FittingCount(f);
    EmittedParity(s, st, f, ratio, i);
    FecPacketAt(s, Advance(st, n), DataPackets(s, st, f), ratio, i - n);
    FecHeaderFields(s, Numbered(Advance(st, n), i - n), st.fecGroupId, n, |Emitted(s, st, f, ratio)| - n, i - n);
  }

  lemma {:induction false} FecHeaderFields(s: Stream, sequence: u16, group: u8, k: u8, m: u8, p: u8)
    ensures var hdr := FecHeader(s, sequence, group, k, m, p);
      && hdr.payloadType == FEC_TYPE && RsFlag(hdr.flags) && hdr.fecGroupId == group
      && hdr.totalPackets == k && hdr.packetIndex == m && hdr.fecIndex == p
  {}

  // What follows the data packets is the parity computed over them.
  lemma {:induction false} EmittedParity(s: Stream, st: SenderState, f: Frame, ratio: real, i: nat)
    requires PacketCount(|f.data|) <= i < |Emitted(s, st, f, ratio)|
    ensures var n, data := PacketCount(|f.data|), DataPackets(s, st, f);
      var parity := FecPackets(s, Advance(st, n), data, ratio);
      |parity| == |Emitted(s, st, f, ratio)| - n && Emitted(s, st, f, ratio)[i] == parity[i - n]
  {
    hide PacketCount, FecPackets, Share;
  }

  // ----- amounts and fields, in numbers

  // k packets of 1379 bytes, the last perhaps shorter, carry n bytes.
  predicate CutInto(n: nat, k: nat) { 1379 * (k - 1) < n <= 1379 * k && 1 <= k <= 65535 }

  lemma {:induction false} CountInNumbers(n: nat, k: nat)
    requires CutInto(n, k)
    ensures PacketCount(n) == k
  {}

  // Of a frame of any size only as many data packets go out as 16 bits can count.
  lemma {:induction false} DataCountWraps(s: Stream, st: SenderState, f: Frame, k: nat)
    requires 1379 * (k - 1) < |f.data| <= 1379 * k
    ensures |DataPackets(s, st, f)| == k % 65536
  {
    assert (|f.data| + 1378) / 1379 == k;
  }

  lemma {:induction false} PayloadsAreNotEmpty(s: Stream, st: SenderState, f: Frame, k: nat)
    requires CutInto(|f.data|, k)
    ensures ShardSize(Payloads(DataPackets(s, st, f))) > 0
  {
    CountInNumbers(|f.data|, k);
    var data := DataPackets(s, st, f);
    assert Chunk(f.data, 0) != [];
    assert PlainPacket(s, st, f, 0).payload == Chunk(f.data, 0);
    hide PacketCount, PlainPacket, Chunk;
    assert data[0] == Seal(s.crypto, PlainPacket(s, st, f, 0));
    assert Payloads(data)[0] == data[0].payload;
  }

  // A frame cut into k packets is followed by the ratio's share of k parity packets, rounded down, but by no
  // more than make 255 packets with the data.
  lemma {:induction false} ParityAmount(s: Stream, st: SenderState, f: Frame, ratio: real, k: nat)
    requires CutInto(|f.data|, k)
    ensures var m, share := |Emitted(s, st, f, ratio)| - k, k as real * ratio;
      && (share < 1.0 ==> m == 0)
      && (share >= 1.0 && k as real + share < 256.0 ==> m as real <= share < m as real + 1.0)
      && (share >= 1.0 && k as real + share >= 256.0 ==> m == if k <= 255 then 255 - k else 0)
  {
    CountInNumbers(|f.data|, k);
    PayloadsAreNotEmpty(s, st, f, k);
    hide DataPackets, Parity, ShardSize, Payloads, PacketCount;
    assert |DataPackets(s, st, f)| == k;
    ShareInNumbers(k, ratio);
  }

  // At the ratio a session starts with, 50 packets are followed by 5.
  lemma {:induction false} FiftyPackets(s: Stream, st: SenderState, f: Frame)
    requires CutInto(|f.data|, 50)
    ensures |Emitted(s, st, f, 0.1)| == 55
  {
    hide Emitted;
    ParityAmount(s, st, f, 0.1, 50);
  }

  // A data packet on the wire: its header in numbers, the last one and an IDR frame's marked in the flags.
  lemma {:induction false} DataOnTheWire(s: Stream, st: SenderState, f: Frame, ratio: real, k: nat, i: nat)
    requires CutInto(|f.data|, k) && k <= 255 && i < k
    ensures |Emitted(s, st, f, ratio)| >= k
    ensures var hdr := Emitted(s, st, f, ratio)[i].hdr;
      && hdr.version == 2 && hdr.payloadType == 96 && hdr.sequence == (st.sequence + i) % 65536
      && hdr.timestamp == f.number * 1500 % 4294967296 && hdr.ssrc == s.ssrc && hdr.frameNumber == f.number % 65536
      && hdr.packetIndex == i && hdr.totalPackets == k && hdr.hostProcTime == f.hostProcTime
      && hdr.fecGroupId == st.fecGroupId && hdr.fecIndex == i && hdr.flags < 4
      && (hdr.flags % 2 == 1 <==> f.isIdr) && (hdr.flags >= 2 <==> i == k - 1)
    ensures var chunk := f.data[1379 * i..if i == k - 1 then |f.data| else 1379 * (i + 1)];
      var n := Nonce(s.ssrc, f.number % 65536, (st.sequence + i) % 65536);
      Emitted(s, st, f, ratio)[i].payload ==
        if s.crypto.Some? && s.crypto.value.encrypt(n, chunk) != [] then s.crypto.value.encrypt(n, chunk) else chunk
  {
    CountInNumbers(|f.data|, k);
    SealedPacket(s, st, f, ratio, i);
    PlainInNumbers(s, st, f, k, i);
    hide *;
  }

  lemma {:induction false} SealedPacket(s: Stream, st: SenderState, f: Frame, ratio: real, i: nat)
    requires i < PacketCount(|f.data|)
    ensures Emitted(s, st, f, ratio)[i].hdr == PlainPacket(s, st, f, i).hdr
    ensures var hdr, chunk := PlainPacket(s, st, f, i).hdr, PlainPacket(s, st, f, i).payload;
      var n := Nonce(hdr.ssrc, hdr.frameNumber, hdr.sequence);
      Emitted(s, st, f, ratio)[i].payload ==
        if s.crypto.Some? && s.crypto.value.encrypt(n, chunk) != [] then s.crypto.value.encrypt(n, chunk) else chunk
  {
    hide PacketCount, PlainPacket, FecPackets, Share;
    assert Emitted(s, st, f, ratio)[i] == DataPackets(s, st, f)[i];
    SealedHeader(s.crypto, PlainPacket(s, st, f, i));
  }

  lemma {:induction false} PlainInNumbers(s: Stream, st: SenderState, f: Frame, k: nat, i: nat)
    requires CutInto(|f.data|, k) && k <= 255 && i < k
    ensures var hdr := PlainPacket(s, st, f, i).hdr;
      && hdr.version == 2 && hdr.payloadType == 96 && hdr.sequence == (st.sequence + i) % 65536
      && hdr.timestamp == f.number * 1500 % 4294967296 && hdr.ssrc == s.ssrc && hdr.frameNumber == f.number % 65536
      && hdr.packetIndex == i && hdr.totalPackets == k && hdr.hostProcTime == f.hostProcTime
      && hdr.fecGroupId == st.fecGroupId && hdr.fecIndex == i && hdr.flags < 4
      && (hdr.flags % 2 == 1 <==> f.isIdr) && (hdr.flags >= 2 <==> i == k - 1)
    ensures PlainPacket(s, st, f, i).payload == f.data[1379 * i..if i == k - 1 then |f.data| else 1379 * (i + 1)]
  {
    CountInNumbers(|f.data|, k);
    hide PacketCount;
  }

  // A parity packet on the wire: it counts its group's data and parity and carries the Reed-Solomon flag alone.
  lemma {:induction false} ParityOnTheWire(s: Stream, st: SenderState, f: Frame, ratio: real, k: nat, i: nat)
    requires CutInto(|f.data|, k) && k <= 255 && k <= i < |Emitted(s, st, f, ratio)|
    ensures var hdr := Emitted(s, st, f, ratio)[i].hdr;
      && hdr.version == 2 && hdr.payloadType == 97 && hdr.sequence == (st.sequence + i) % 65536
      && hdr.timestamp == 0 && hdr.ssrc == s.ssrc && hdr.frameNumber == 0
      && hdr.packetIndex == |Emitted(s, st, f, ratio)| - k && hdr.totalPackets == k && hdr.hostProcTime == 0
      && hdr.fecGroupId == st.fecGroupId && hdr.fecIndex == i - k && hdr.flags == 4
  {
    hide *;
    CountInNumbers(|f.data|, k);
    EmissionNumbers(s, st, f, ratio, i);
    EmittedParity(s, st, f, ratio, i);
    FecOnTheWire(s, Advance(st, k), DataPackets(s, st, f), ratio, i - k);
    AdvanceKeepsGroup(st, k);
  }

  lemma {:induction false} AdvanceKeepsGroup(st: SenderState, n: nat)
    ensures Advance(st, n).fecGroupId == st.fecGroupId
  {}

  lemma {:induction false} FecOnTheWire(s: Stream, st: SenderState, packets: seq<Packet>, ratio: real, j: nat)
    requires j < |FecPackets(s, st, packets, ratio)|
    ensures var hdr := FecPackets(s, st, packets, ratio)[j].hdr;
      && hdr.version == 2 && hdr.payloadType == 97 && hdr.timestamp == 0 && hdr.ssrc == s.ssrc && hdr.frameNumber == 0
      && hdr.packetIndex == |FecPackets(s, st, packets, ratio)| && hdr.totalPackets == |packets|
      && hdr.hostProcTime == 0 && hdr.fecGroupId == st.fecGroupId && hdr.fecIndex == j && hdr.flags == 4
  {
    FecPacketAt(s, st, packets, ratio, j);
    hide FecPackets, Parity, ShardSize, Payloads, Numbered;
  }
}
