// Sender, channel and receiver together.
module VideoPipeline {
  import opened Wrappers
  import opened Bytes
  import opened LinearAlgebra
  import opened ErasureCode
  import opened VideoPackets
  import opened VideoSending
  import opened VideoReceiving
  import opened FrameTracking
  import opened FrameRuns

  const MAX_FRAME := 255 * MAX_PAYLOAD

  // Frames whose packet count survives the 8-bit header field.
  predicate Fits(f: Frame) { 1 <= |f.data| <= MAX_FRAME }

  function ImageOf(f: Frame): Image {
    Image(f.number % 0x1_0000, Chunks(f.data), f.isIdr, f.hostProcTime)
  }

  // ----- chunks

  lemma {:induction false} ChunkSizes(data: seq<Byte>, i: nat)
    requires 1 <= |data| <= 65535 * MAX_PAYLOAD && i < PacketCount(|data|)
    ensures PacketCount(|data|) == (|data| + MAX_PAYLOAD - 1) / MAX_PAYLOAD
    ensures 1 <= |Chunk(data, i)| <= MAX_PAYLOAD
    ensures i < PacketCount(|data|) - 1 ==> |Chunk(data, i)| == MAX_PAYLOAD
    ensures (PacketCount(|data|) - 1) * MAX_PAYLOAD < |data| <= PacketCount(|data|) * MAX_PAYLOAD
  {}

  lemma {:induction false} ConcatChunks(data: seq<Byte>, chunks: seq<Vector>)
    requires forall i :: 0 <= i < |chunks| ==> chunks[i] == Chunk(data, i)
    ensures Concat(chunks) == data[..Min(|chunks| * MAX_PAYLOAD, |data|)]
  {
    if chunks != [] {
      var n := |chunks| - 1;
      ConcatChunks(data, chunks[..n]);
      assert data[..Min(n * MAX_PAYLOAD, |data|)] + Chunk(data, n) == data[..Min((n + 1) * MAX_PAYLOAD, |data|)];
    }
  }

  // The chunks are between 1 and 1379 bytes long and put together give the frame back.
  lemma {:induction false} ChunksPartitionTheFrame(data: seq<Byte>)
    requires 1 <= |data| <= 65535 * MAX_PAYLOAD
    ensures Concat(Chunks(data)) == data
    ensures forall i :: 0 <= i < |Chunks(data)| ==> 1 <= |Chunks(data)[i]| <= MAX_PAYLOAD
  {
    ConcatChunks(data, Chunks(data));
    ChunkSizes(data, 0);
    assert data[..|data|] == data;
    forall i | 0 <= i < |Chunks(data)| ensures 1 <= |Chunks(data)[i]| <= MAX_PAYLOAD { ChunkSizes(data, i); }
  }

  lemma {:induction false} FittingCount(f: Frame)
    requires Fits(f)
    ensures 1 <= PacketCount(|f.data|) <= 255 && |ImageOf(f).chunks| == PacketCount(|f.data|)
    ensures Concat(ImageOf(f).chunks) == f.data
  {
    ChunksPartitionTheFrame(f.data);
  }

  // ----- packets of a sent frame

  // Data packet i arrives as packet i of the frame.
  lemma {:induction false} SentIsOf(s: Stream, st: SenderState, f: Frame, i: nat, a: Arrival)
    requires Fits(f) && (s.crypto.Some? ==> Lawful(s.crypto.value))
    requires i < PacketCount(|f.data|) && a.packet == DataPackets(s, st, f)[i]
    ensures IsOf(s.crypto, a, ImageOf(f)) && a.packet.hdr.packetIndex == i
  {
    hide Chunk, Lawful;
    FittingCount(f);
    ChunkSizes(f.data, i);
    OpenSeal(s.crypto, PlainPacket(s, st, f, i));
    hide PacketCount;
  }

  // The packets of an arrival sequence.
  predicate Carry(arrivals: seq<Arrival>, packets: seq<Packet>) {
    |arrivals| == |packets| && forall i :: 0 <= i < |packets| ==> arrivals[i].packet == packets[i]
  }

  lemma {:induction false} ParityIsParity(s: Stream, st: SenderState, f: Frame, ratio: real, i: nat)
    requires PacketCount(|f.data|) <= i < |Emitted(s, st, f, ratio)|
    ensures Emitted(s, st, f, ratio)[i].hdr.payloadType == FEC_TYPE
  {
    hide Parity, Share, ParityCount, PacketCount, ShardSize;
  }

  // ----- what a channel that only loses packets lets through

  // The kept ones among the first n arrivals, in order.
  function Survivors(arrivals: seq<Arrival>, keep: seq<bool>, n: nat): seq<Arrival>
    requires n <= |arrivals| == |keep|
  {
    if n == 0 then []
    else Survivors(arrivals, keep, n - 1) + if keep[n - 1] then [arrivals[n - 1]] else []
  }

  ghost predicate InOrder(crypto: Option<Cipher>, arrivals: seq<Arrival>, g: Image) {
    |arrivals| == |g.chunks| &&
    forall i :: 0 <= i < |arrivals| ==> IsOf(crypto, arrivals[i], g) && arrivals[i].packet.hdr.packetIndex == i
  }

  lemma {:induction false} FlagsSnoc(n: nat, arrivals: seq<Arrival>, a: Arrival)
    ensures Flags(n, arrivals + [a]) ==
      if IsParity(a) || a.packet.hdr.packetIndex >= n then Flags(n, arrivals)
      else Flags(n, arrivals)[a.packet.hdr.packetIndex := true]
  {
    assert (arrivals + [a])[..|arrivals|] == arrivals;
  }

  // Survivors set their own flags and no others, and never follow completion.
  lemma {:induction false} SurvivorFlags(crypto: Option<Cipher>, arrivals: seq<Arrival>, keep: seq<bool>, g: Image,
                                         n: nat)
    requires InOrder(crypto, arrivals, g) && |keep| == |arrivals| && n <= |keep|
    ensures Concerns(crypto, Survivors(arrivals, keep, n), g)
    ensures Tidy(|g.chunks|, Survivors(arrivals, keep, n))
    ensures forall i :: 0 <= i < |Survivors(arrivals, keep, n)| ==> !IsParity(Survivors(arrivals, keep, n)[i])
    ensures Flags(|g.chunks|, Survivors(arrivals, keep, n)) == FirstKept(keep, n)
  {
    hide IsOf, IsParity, Flags, Tidy;
    if n == 0 {
      NoFlags(|g.chunks|);
      assert FirstKept(keep, 0) == seq(|keep|, _ => false);
    } else {
      SurvivorFlags(crypto, arrivals, keep, g, n - 1);
      var k, a := Survivors(arrivals, keep, n - 1), arrivals[n - 1];
      if keep[n - 1] {
        DataIsNotParity(crypto, a, g);
        FlagsSnoc(|g.chunks|, k, a);
        NotAll(Flags(|g.chunks|, k), n - 1);
        TidySnoc(|g.chunks|, k, a);
        assert FirstKept(keep, n) == FirstKept(keep, n - 1)[n - 1 := true];
      } else {
        assert k + [] == k;
        assert FirstKept(keep, n) == FirstKept(keep, n - 1);
      }
    }
  }

  function FirstKept(keep: seq<bool>, n: nat): (f: seq<bool>)
    ensures |f| == |keep| && forall i :: 0 <= i < |f| ==> f[i] == (i < n && keep[i])
  {
    seq(|keep|, i requires 0 <= i < |keep| => i < n && keep[i])
  }

  lemma {:induction false} NoFlags(n: nat)
    ensures Flags(n, []) == seq(n, _ => false) && Tidy(n, [])
  {}

  lemma {:induction false} DataIsNotParity(crypto: Option<Cipher>, a: Arrival, g: Image)
    requires IsOf(crypto, a, g)
    ensures !IsParity(a)
  {}

  lemma {:induction false} TidySnoc(n: nat, arrivals: seq<Arrival>, a: Arrival)
    requires Tidy(n, arrivals) && (IsParity(a) || !All(Flags(n, arrivals)))
    ensures Tidy(n, arrivals + [a])
  {
    hide Flags, All;
    var all := arrivals + [a];
    forall j | 0 <= j < |all| && !IsParity(all[j]) ensures !All(Flags(n, all[..j])) {
      assert all[..j] == arrivals[..j];
      if j == |arrivals| { assert arrivals[..j] == arrivals; } else { assert !IsParity(arrivals[j]); }
    }
  }

  // Parity packets at the end change neither flags nor tidiness.
  lemma {:induction false} ParityTail(crypto: Option<Cipher>, arrivals: seq<Arrival>, tail: seq<Arrival>, g: Image)
    requires Concerns(crypto, arrivals, g) && Tidy(|g.chunks|, arrivals)
    requires forall i :: 0 <= i < |tail| ==> IsParity(tail[i])
    ensures Concerns(crypto, arrivals + tail, g) && Tidy(|g.chunks|, arrivals + tail)
    ensures Flags(|g.chunks|, arrivals + tail) == Flags(|g.chunks|, arrivals)
    ensures FirstAt(arrivals + tail) == FirstAt(arrivals) && HasData(arrivals + tail) == HasData(arrivals)
  {
    hide Tidy, IsOf;
    if tail == [] {
      assert arrivals + tail == arrivals;
    } else {
      var t, a := tail[..|tail| - 1], tail[|tail| - 1];
      ParityTail(crypto, arrivals, t, g);
      assert arrivals + tail == (arrivals + t) + [a];
      assert ((arrivals + t) + [a])[..|arrivals + t|] == arrivals + t;
      TidySnoc(|g.chunks|, arrivals + t, a);
    }
  }

  // ----- a stream of frames

  datatype Job = Job(frame: Frame, ratio: real)

  // The sender after the first n frames.
  ghost function StateBefore(s: Stream, st: SenderState, jobs: seq<Job>, n: nat): SenderState
    requires n <= |jobs|
  {
    if n == 0 then st
    else AfterFrame(s, StateBefore(s, st, jobs, n - 1), jobs[n - 1].frame, jobs[n - 1].ratio)
  }

  // What the sender emits for frame j, data and parity.
  ghost function SentFor(s: Stream, st: SenderState, jobs: seq<Job>, j: nat): seq<Packet>
    requires j < |jobs|
  {
    Emitted(s, StateBefore(s, st, jobs, j), jobs[j].frame, jobs[j].ratio)
  }

  ghost function DataFor(s: Stream, st: SenderState, jobs: seq<Job>, j: nat): seq<Packet>
    requires j < |jobs|
  {
    DataPackets(s, StateBefore(s, st, jobs, j), jobs[j].frame)
  }

  function Images(jobs: seq<Job>): (g: seq<Image>)
    ensures |g| == |jobs| && forall j :: 0 <= j < |jobs| ==> g[j] == ImageOf(jobs[j].frame)
  {
    seq(|jobs|, j requires 0 <= j < |jobs| => ImageOf(jobs[j].frame))
  }

  // The frame as the decoder should get it.
  function Intact(f: Frame, at: int): Delivery {
    Delivery(f.number % 0x1_0000, f.data, at, f.isIdr, PacketCount(|f.data|))
  }

  lemma {:induction false} WholeIsIntact(f: Frame, at: int)
    requires Fits(f)
    ensures Whole(ImageOf(f), at) == Intact(f, at)
  {
    FittingCount(f);
  }

  ghost predicate CipherOk(s: Stream) { s.crypto.Some? ==> Lawful(s.crypto.value) }

  lemma {:induction false} SentInOrder(s: Stream, st: SenderState, f: Frame, arrivals: seq<Arrival>)
    requires Fits(f) && CipherOk(s) && Carry(arrivals, DataPackets(s, st, f))
    ensures InOrder(s.crypto, arrivals, ImageOf(f)) && |arrivals| == PacketCount(|f.data|) > 0
  {
    hide DataPackets, IsOf, Lawful, Seal, PacketCount;
    FittingCount(f);
    forall i | 0 <= i < |arrivals|
      ensures IsOf(s.crypto, arrivals[i], ImageOf(f)) && arrivals[i].packet.hdr.packetIndex == i
    {
      SentIsOf(s, st, f, i, arrivals[i]);
    }
  }

  lemma {:induction false} KeepAll(arrivals: seq<Arrival>, keep: seq<bool>, n: nat)
    requires n <= |arrivals| == |keep| && All(keep)
    ensures Survivors(arrivals, keep, n) == arrivals[..n]
  {
    if n > 0 { KeepAll(arrivals, keep, n - 1); }
  }

  lemma {:induction false} FirstSurvivor(crypto: Option<Cipher>, arrivals: seq<Arrival>, g: Image, n: nat)
    requires InOrder(crypto, arrivals, g) && 0 < n <= |arrivals|
    ensures HasData(arrivals[..n]) && FirstAt(arrivals[..n]) == arrivals[0].at
  {
    hide IsOf;
    DataIsNotParity(crypto, arrivals[n - 1], g);
    assert arrivals[..n][..n - 1] == arrivals[..n - 1];
    if n > 1 { FirstSurvivor(crypto, arrivals, g, n - 1); }
  }

  // All data packets of a frame in order.
  lemma {:induction false} DataPart(crypto: Option<Cipher>, data: seq<Arrival>, g: Image)
    requires InOrder(crypto, data, g) && data != []
    ensures Concerns(crypto, data, g) && Tidy(|g.chunks|, data)
    ensures All(Flags(|g.chunks|, data)) && HasData(data) && FirstAt(data) == data[0].at
  {
    hide IsOf, Flags, HasData, FirstAt, Tidy;
    var n := |data|;
    var keep := seq(n, _ => true);
    SurvivorFlags(crypto, data, keep, g, n);
    KeepAll(data, keep, n);
    assert data[..n] == data;
    FirstSurvivor(crypto, data, g, n);
  }

  // A frame whose packets all arrive in order, parity last.
  lemma {:induction false} FullPart(s: Stream, st: SenderState, f: Frame, ratio: real, part: seq<Arrival>)
    requires Fits(f) && CipherOk(s) && Carry(part, Emitted(s, st, f, ratio))
    ensures ImageOf(f).chunks != [] && part != []
    ensures Concerns(s.crypto, part, ImageOf(f)) && Tidy(|ImageOf(f).chunks|, part)
    ensures All(Flags(|ImageOf(f).chunks|, part)) && FirstAt(part) == part[0].at
  {
    hide FecPackets, DataPackets, IsOf, Flags, HasData, FirstAt, Tidy, All, PacketCount;
    var g, n := ImageOf(f), PacketCount(|f.data|);
    var data, tail := part[..n], part[n..];
    assert Carry(data, DataPackets(s, st, f));
    SentInOrder(s, st, f, data);
    DataPart(s.crypto, data, g);
    forall i | 0 <= i < |tail| ensures IsParity(tail[i]) { ParityIsParity(s, st, f, ratio, n + i); }
    ParityTail(s.crypto, data, tail, g);
    assert data + tail == part;
  }

  lemma {:induction false} AllWhole(images: seq<Image>, parts: seq<seq<Arrival>>, n: nat)
    requires n <= |parts| == |images| && AllComplete(images, parts)
    ensures WholeFrames(images, parts, n) == seq(n, j requires 0 <= j < n => Whole(images[j], FirstAt(parts[j])))
  {
    hide Whole, FirstAt, All;
    if n > 0 {
      AllWhole(images, parts, n - 1);
      assert All(PartFlags(images, parts, n - 1));
    }
  }

  // Nothing lost: the callbacks receive exactly the frames sent, in order, each once, encrypted or not,
  // whatever the parity ratio, whatever the parity slots held before.
  lemma {:induction false} LosslessRoundTrip(s: Stream, st: SenderState, jobs: seq<Job>, r: State,
                                             parts: seq<seq<Arrival>>)
    requires CipherOk(s) && Valid(r) && r.current == BLANK && |parts| == |jobs|
    requires forall j :: 0 <= j < |jobs| ==> Fits(jobs[j].frame) && Carry(parts[j], SentFor(s, st, jobs, j))
    ensures forall j :: 0 <= j < |jobs| ==> parts[j] != []
    ensures Run(s.crypto, r, Flatten(parts, |parts|)).1 ==
      seq(|jobs|, j requires 0 <= j < |jobs| => Intact(jobs[j].frame, parts[j][0].at))
    ensures Run(s.crypto, r, Flatten(parts, |parts|)).0.current == BLANK
  {
    hide Emitted, Fits, Flags, HasData, FirstAt, Tidy, Concerns, Lawful, Valid, ImageOf, Whole, Intact, All, Flatten;
    var images := Images(jobs);
    forall j | 0 <= j < |jobs|
      ensures
        && images[j].chunks != [] && Concerns(s.crypto, parts[j], images[j]) && Tidy(|images[j].chunks|, parts[j])
        && All(PartFlags(images, parts, j)) && parts[j] != [] && FirstAt(parts[j]) == parts[j][0].at
    {
      FullPart(s, StateBefore(s, st, jobs, j), jobs[j].frame, jobs[j].ratio, parts[j]);
    }
    forall n | 0 <= n <= |parts| ensures PendingAfter(images, parts, n) == BLANK { NothingPending(images, parts, n); }
    ManyFrames(s.crypto, r, images, parts, |parts|);
    AllWhole(images, parts, |parts|);
    forall j | 0 <= j < |jobs| ensures Whole(images[j], FirstAt(parts[j])) == Intact(jobs[j].frame, parts[j][0].at) {
      WholeIsIntact(jobs[j].frame, parts[j][0].at);
    }
  }

  // ----- a channel that loses packets

  predicate SomeKept(keep: seq<bool>) { exists i :: 0 <= i < |keep| && keep[i] }

  // A partly received frame and the next frame with a survivor differ in their 16-bit numbers.
  ghost predicate NoAlias(jobs: seq<Job>, keeps: seq<seq<bool>>)
    requires |keeps| == |jobs|
  {
    forall i, j :: 0 <= i < j < |jobs| && NextAfterPartial(keeps, i, j) ==>
      jobs[i].frame.number % 0x1_0000 != jobs[j].frame.number % 0x1_0000
  }

  // Frame i was received in part, and j is the next frame with a survivor.
  ghost predicate NextAfterPartial(keeps: seq<seq<bool>>, i: nat, j: nat)
    requires i < j < |keeps|
  {
    && SomeKept(keeps[i]) && !All(keeps[i]) && SomeKept(keeps[j])
    && forall l :: i < l < j ==> !SomeKept(keeps[l])
  }

  // The frames all of whose packets were kept, in order.
  function KeptFrames(jobs: seq<Job>, keeps: seq<seq<bool>>, parts: seq<seq<Arrival>>, n: nat): seq<Delivery>
    requires n <= |jobs| == |keeps| == |parts|
  {
    if n == 0 then []
    else
      KeptFrames(jobs, keeps, parts, n - 1) +
      if All(keeps[n - 1]) then [Intact(jobs[n - 1].frame, FirstAt(parts[n - 1]))] else []
  }

  lemma {:induction false} DataIffKept(crypto: Option<Cipher>, arrivals: seq<Arrival>, keep: seq<bool>, g: Image,
                                       n: nat)
    requires InOrder(crypto, arrivals, g) && |keep| == |arrivals| && n <= |keep|
    ensures HasData(Survivors(arrivals, keep, n)) <==> exists i :: 0 <= i < n && keep[i]
  {
    hide IsOf, IsParity;
    if n > 0 {
      DataIffKept(crypto, arrivals, keep, g, n - 1);
      var k, a := Survivors(arrivals, keep, n - 1), arrivals[n - 1];
      if keep[n - 1] {
        DataIsNotParity(crypto, a, g);
        assert (k + [a])[|k|] == a;
      } else {
        assert k + [] == k;
      }
    }
  }

  // What is pending stems from the last frame with a survivor.
  lemma {:induction false} PendingOrigin(images: seq<Image>, parts: seq<seq<Arrival>>, n: nat) returns (i: int)
    requires n <= |parts| == |images| && PendingAfter(images, parts, n) != BLANK
    ensures 0 <= i < n && HasData(parts[i]) && !All(PartFlags(images, parts, i))
    ensures forall l :: i < l < n ==> !HasData(parts[l])
    ensures PendingFrom(images, parts, n, i)
    ensures PendingAfter(images, parts, n).frameNumber == images[i].number
  {
    hide HasData, All, FirstAt;
    if HasData(parts[n - 1]) { i := n - 1; } else { i := PendingOrigin(images, parts, n - 1); }
  }

  lemma {:induction false} WholeAreKept(jobs: seq<Job>, keeps: seq<seq<bool>>, parts: seq<seq<Arrival>>, n: nat)
    requires n <= |jobs| == |keeps| == |parts|
    requires forall j :: 0 <= j < |jobs| ==> Fits(jobs[j].frame) && PartFlags(Images(jobs), parts, j) == keeps[j]
    ensures WholeFrames(Images(jobs), parts, n) == KeptFrames(jobs, keeps, parts, n)
  {
    hide Whole, Intact, FirstAt, All, Fits, PartFlags, ImageOf;
    if n > 0 {
      WholeAreKept(jobs, keeps, parts, n - 1);
      WholeIsIntact(jobs[n - 1].frame, FirstAt(parts[n - 1]));
      assert PartFlags(Images(jobs), parts, n - 1) == keeps[n - 1];
    }
  }

  // The data packets of a part, in order.
  function DataOf(part: seq<Arrival>): seq<Arrival> {
    if part == [] then []
    else DataOf(part[..|part| - 1]) + if IsParity(part[|part| - 1]) then [] else [part[|part| - 1]]
  }

  // They alone decide what the part says about its frame.
  lemma {:induction false} DataDecides(crypto: Option<Cipher>, part: seq<Arrival>, g: Image)
    requires Concerns(crypto, DataOf(part), g) && Tidy(|g.chunks|, DataOf(part))
    ensures Concerns(crypto, part, g) && Tidy(|g.chunks|, part) && HasData(part) == HasData(DataOf(part))
    ensures Flags(|g.chunks|, part) == Flags(|g.chunks|, DataOf(part)) && FirstAt(part) == FirstAt(DataOf(part))
  {
    hide IsOf, IsParity, Tidy, All;
    var n := |g.chunks|;
    if part != [] {
      var b, a := part[..|part| - 1], part[|part| - 1];
      assert part == b + [a];
      if IsParity(a) {
        assert DataOf(part) == DataOf(b);
        DataDecides(crypto, b, g);
        TidySnoc(n, b, a);
      } else {
        var d := DataOf(b);
        assert (d + [a])[..|d|] == d;
        assert forall i :: 0 <= i < |d| ==> (d + [a])[i] == d[i];
        assert (d + [a])[|d|] == a;
        TidyPrefix(n, d, a);
        DataDecides(crypto, b, g);
        TidySnoc(n, b, a);
      }
    }
  }

  lemma {:induction false} AllAreData(part: seq<Arrival>)
    requires forall i :: 0 <= i < |part| ==> !IsParity(part[i])
    ensures DataOf(part) == part
  {
    if part != [] { AllAreData(part[..|part| - 1]); }
  }

  // Each part brings the kept data packets of its frame in the order sent, and any parity packets in between.
  ghost predicate Lossy(s: Stream, st: SenderState, jobs: seq<Job>, arrivals: seq<seq<Arrival>>,
                        keeps: seq<seq<bool>>, parts: seq<seq<Arrival>>)
  {
    && |arrivals| == |keeps| == |parts| == |jobs|
    && (forall j :: 0 <= j < |jobs| ==>
          Fits(jobs[j].frame) && Carry(arrivals[j], DataFor(s, st, jobs, j)) && |keeps[j]| == |arrivals[j]|)
    && (forall j :: 0 <= j < |jobs| ==> DataOf(parts[j]) == Survivors(arrivals[j], keeps[j], |keeps[j]|))
    && NoAlias(jobs, keeps)
  }

  lemma {:induction false} LossyParts(s: Stream, st: SenderState, jobs: seq<Job>, arrivals: seq<seq<Arrival>>,
                                      keeps: seq<seq<bool>>, parts: seq<seq<Arrival>>)
    requires CipherOk(s) && Lossy(s, st, jobs, arrivals, keeps, parts)
    ensures Parts(s.crypto, Images(jobs), parts) && Separated(Images(jobs), parts)
    ensures forall j :: 0 <= j < |jobs| ==>
      PartFlags(Images(jobs), parts, j) == keeps[j] && (HasData(parts[j]) <==> SomeKept(keeps[j]))
  {
    hide DataPackets, Fits, Flags, HasData, Tidy, Concerns, Lawful, All, Survivors, SomeKept, Chunks, DataOf;
    var images := Images(jobs);
    forall j | 0 <= j < |jobs|
      ensures
        && images[j].chunks != [] && Concerns(s.crypto, parts[j], images[j]) && Tidy(|images[j].chunks|, parts[j])
        && PartFlags(images, parts, j) == keeps[j] && (HasData(parts[j]) <==> SomeKept(keeps[j]))
    {
      KeptPart(s, StateBefore(s, st, jobs, j), jobs[j].frame, arrivals[j], keeps[j]);
      DataDecides(s.crypto, parts[j], images[j]);
    }
    forall n | 0 <= n < |parts| && HasData(parts[n])
      ensures PendingAfter(images, parts, n) == BLANK || PendingAfter(images, parts, n).frameNumber != images[n].number
    {
      if PendingAfter(images, parts, n) != BLANK {
        var i := PendingOrigin(images, parts, n);
        assert NextAfterPartial(keeps, i, n);
      }
    }
  }

  // What each part makes the receiver deliver: first what it flushes, then its frame if all its packets were kept.
  ghost function KeptAndFlushed(r: State, jobs: seq<Job>, keeps: seq<seq<bool>>, parts: seq<seq<Arrival>>, n: nat)
    : seq<Delivery>
    requires Valid(r) && n <= |jobs| == |keeps| == |parts|
  {
    if n == 0 then []
    else
      KeptAndFlushed(r, jobs, keeps, parts, n - 1) +
      (Flushed(r, Images(jobs), parts, n - 1) +
       if All(keeps[n - 1]) then [Intact(jobs[n - 1].frame, FirstAt(parts[n - 1]))] else [])
  }

  lemma {:induction false} DeliveriesAreKept(r: State, jobs: seq<Job>, keeps: seq<seq<bool>>,
                                             parts: seq<seq<Arrival>>, n: nat)
    requires Valid(r) && n <= |jobs| == |keeps| == |parts|
    requires forall j :: 0 <= j < |jobs| ==> Fits(jobs[j].frame) && PartFlags(Images(jobs), parts, j) == keeps[j]
    ensures Deliveries(r, Images(jobs), parts, n) == KeptAndFlushed(r, jobs, keeps, parts, n)
  {
    hide Whole, Intact, FirstAt, All, Fits, PartFlags, ImageOf, Flushed, Valid;
    if n > 0 {
      DeliveriesAreKept(r, jobs, keeps, parts, n - 1);
      WholeIsIntact(jobs[n - 1].frame, FirstAt(parts[n - 1]));
      assert PartFlags(Images(jobs), parts, n - 1) == keeps[n - 1];
    }
  }

  // Packets lost, and any parity, whatever it protects, mixed in: every frame all of whose packets arrived is
  // delivered, byte for byte, in the order sent, once. In between come at most frames received in part, each
  // when the next frame with a survivor starts.
  lemma {:induction false} LossyChannel(s: Stream, st: SenderState, jobs: seq<Job>, r: State,
                                        arrivals: seq<seq<Arrival>>, keeps: seq<seq<bool>>, parts: seq<seq<Arrival>>)
    requires CipherOk(s) && Valid(r) && r.current == BLANK && Lossy(s, st, jobs, arrivals, keeps, parts)
    ensures Run(s.crypto, r, Flatten(parts, |parts|)).1 == KeptAndFlushed(r, jobs, keeps, parts, |jobs|)
    ensures forall n :: 0 <= n < |jobs| && Flushed(r, Images(jobs), parts, n) != [] ==>
      && |Flushed(r, Images(jobs), parts, n)| == 1
      && exists i :: 0 <= i < n && NextAfterPartial(keeps, i, n)
           && Flushed(r, Images(jobs), parts, n)[0].frameNumber == jobs[i].frame.number % 0x1_0000
  {
    hide Run, Valid, Lossy, HasData, All, Flatten, SomeKept, Flush, Images, Deliveries, KeptAndFlushed, PartFlags,
      Fits, NextAfterPartial, PendingAfter, StateAfter, Separated, Led;
    LossyParts(s, st, jobs, arrivals, keeps, parts);
    LossyRun(s.crypto, r, Images(jobs), parts, |parts|);
    LossyMeans(s, st, jobs, arrivals, keeps, parts);
    DeliveriesAreKept(r, jobs, keeps, parts, |jobs|);
    forall n | 0 <= n < |jobs| && Flushed(r, Images(jobs), parts, n) != []
      ensures |Flushed(r, Images(jobs), parts, n)| == 1
      ensures exists i :: 0 <= i < n && NextAfterPartial(keeps, i, n)
                && Flushed(r, Images(jobs), parts, n)[0].frameNumber == jobs[i].frame.number % 0x1_0000
    {
      var i := FlushedOrigin(r, jobs, keeps, parts, n);
    }
  }

  lemma {:induction false} LossyMeans(s: Stream, st: SenderState, jobs: seq<Job>, arrivals: seq<seq<Arrival>>,
                                      keeps: seq<seq<bool>>, parts: seq<seq<Arrival>>)
    requires Lossy(s, st, jobs, arrivals, keeps, parts)
    ensures |keeps| == |parts| == |jobs| && forall j :: 0 <= j < |jobs| ==> Fits(jobs[j].frame)
  {}

  // Only a frame received in part is flushed, by the next frame of which a packet was kept.
  lemma {:induction false} FlushedOrigin(r: State, jobs: seq<Job>, keeps: seq<seq<bool>>, parts: seq<seq<Arrival>>,
                                         n: nat)
    returns (i: nat)
    requires Valid(r) && r.current == BLANK && n < |jobs| == |keeps| == |parts|
    requires forall j :: 0 <= j < |jobs| ==>
      PartFlags(Images(jobs), parts, j) == keeps[j] && (HasData(parts[j]) <==> SomeKept(keeps[j]))
    requires Flushed(r, Images(jobs), parts, n) != []
    ensures |Flushed(r, Images(jobs), parts, n)| == 1 && i < n && NextAfterPartial(keeps, i, n)
    ensures Flushed(r, Images(jobs), parts, n)[0].frameNumber == jobs[i].frame.number % 0x1_0000
    ensures PendingFrom(Images(jobs), parts, n, i)
  {
    hide HasData, All, SomeKept, Flush, Valid, StateAfter, SlotsAfter, PendingAfter, Holding, FirstAt;
    var images := Images(jobs);
    var before := StateAfter(r, images, parts, n);
    FlushedIsPending(Led(before, parts[n]));
    PendingIs(r, images, parts, n);
    LedKeepsPending(before, parts[n]);
    i := PendingOrigin(images, parts, n);
  }

  // Packets lost and no parity: exactly the frames all of whose packets arrived are delivered, byte for byte,
  // in the order sent, each once.
  lemma {:induction false} LossOnlyChannel(s: Stream, st: SenderState, jobs: seq<Job>, r: State,
                                           arrivals: seq<seq<Arrival>>, keeps: seq<seq<bool>>,
                                           parts: seq<seq<Arrival>>)
    requires CipherOk(s) && Valid(r) && r.current == BLANK && NoLiveSlot(r.slots)
    requires |arrivals| == |keeps| == |parts| == |jobs|
    requires forall j :: 0 <= j < |jobs| ==>
      Fits(jobs[j].frame) && Carry(arrivals[j], DataFor(s, st, jobs, j)) && |keeps[j]| == |arrivals[j]|
    requires forall j :: 0 <= j < |jobs| ==> parts[j] == Survivors(arrivals[j], keeps[j], |keeps[j]|)
    requires NoAlias(jobs, keeps)
    ensures Run(s.crypto, r, Flatten(parts, |parts|)).1 == KeptFrames(jobs, keeps, parts, |jobs|)
  {
    hide Run, Valid, HasData, All, Flatten, SomeKept, Images, PartFlags, Fits, Separated, NoLiveSlot, NoAlias,
      DataPackets, Survivors, DataOf, Flags, Tidy, Concerns, ImageOf, CipherOk, IsParity;
    forall j | 0 <= j < |jobs|
      ensures DataOf(parts[j]) == parts[j] && forall i :: 0 <= i < |parts[j]| ==> !IsParity(parts[j][i])
    {
      KeptPart(s, StateBefore(s, st, jobs, j), jobs[j].frame, arrivals[j], keeps[j]);
      AllAreData(parts[j]);
    }
    LossyParts(s, st, jobs, arrivals, keeps, parts);
    ManyFrames(s.crypto, r, Images(jobs), parts, |parts|);
    WholeAreKept(jobs, keeps, parts, |parts|);
  }

  lemma {:induction false} KeptPart(s: Stream, st: SenderState, f: Frame, arrivals: seq<Arrival>, keep: seq<bool>)
    requires Fits(f) && CipherOk(s) && Carry(arrivals, DataPackets(s, st, f)) && |keep| == |arrivals|
    ensures var g, part := ImageOf(f), Survivors(arrivals, keep, |keep|);
      && g.chunks != [] && Concerns(s.crypto, part, g) && Tidy(|g.chunks|, part)
      && Flags(|g.chunks|, part) == keep && (HasData(part) <==> SomeKept(keep))
      && (forall i :: 0 <= i < |part| ==> !IsParity(part[i]))
  {
    hide DataPackets, IsOf, Flags, HasData, Tidy, PacketCount, IsParity, Survivors;
    SentInOrder(s, st, f, arrivals);
    SurvivorFlags(s.crypto, arrivals, keep, ImageOf(f), |keep|);
    DataIffKept(s.crypto, arrivals, keep, ImageOf(f), |keep|);
    assert FirstKept(keep, |keep|) == keep;
  }
}
