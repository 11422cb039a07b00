// Runs in which recovery goes wrong, packet by packet: the failures of RecoveryFailures and EncryptedRecovery happen.
module FailingRuns {
  import opened Wrappers
  import opened Bytes
  import opened LinearAlgebra
  import opened ErasureCode
  import opened VideoPackets
  import opened VideoSending
  import opened VideoReceiving
  import opened FrameTracking
  import opened FrameRuns
  import opened VideoPipeline
  import opened FrameLimits
  import opened Recovery
  import opened RecoveryDelivery
  import opened RecoveryFailures
  import opened RecoveryBursts
  import opened EncryptedRecovery

  const PLAIN := Stream(0, None)
  const START := SenderState(0, 0)
  const RATIO := 0.4

  // Two frames of five packets that differ in one byte of the last, and a packet of yet another frame.
  const FIRST := Frame(0, Zero(4 * MAX_PAYLOAD) + [0], false, 0)
  const SECOND := Frame(1, Zero(4 * MAX_PAYLOAD) + [1], false, 0)
  const NEXT := Arrival(Packet(Header(2, DATA_TYPE, 0, 0, 0, 2, 0, 1, 0, 0, 0, 2), [0]), 0)

  lemma {:induction false} FivePackets(f: Frame)
    requires |f.data| == 4 * MAX_PAYLOAD + 1
    ensures PacketCount(|f.data|) == 5 && Fits(f)
  {}

  lemma {:induction false} ChunkOf(last: Byte, i: nat)
    requires i < 5
    ensures Chunk(Zero(4 * MAX_PAYLOAD) + [last], i) == if i < 4 then Zero(MAX_PAYLOAD) else [last]
  {}

  lemma {:induction false} TheyAreTwins()
    ensures Twins(FIRST, SECOND, 4)
  {
    hide Chunk, PacketCount, Fits;
    FivePackets(FIRST);
    FivePackets(SECOND);
    var a, b := Chunks(FIRST.data), Chunks(SECOND.data);
    forall i | 0 <= i < 5
      ensures a[i] == if i < 4 then Zero(MAX_PAYLOAD) else [0]
      ensures b[i] == if i < 4 then Zero(MAX_PAYLOAD) else [1]
    {
      ChunkOf(0, i);
      ChunkOf(1, i);
    }
    assert ByteAt(a[4], 0) != ByteAt(b[4], 0);
  }

  // Each of them is sent with two parity packets.
  lemma {:induction false} TwoParity(s: Stream, st: SenderState, f: Frame)
    requires |f.data| == 4 * MAX_PAYLOAD + 1 && ShardSize(Sealed(s, st, f)) > 0
    ensures |Emitted(s, st, f, RATIO)| == 7 && ParitySent(s, st, f, RATIO) == 2
  {
    FivePackets(f);
    SealedMeans(s, st, f);
    assert Share(5, RATIO) == 2;
    hide ShardSize, PacketCount, Parity, DataPackets, Payloads, Sealed, Share;
  }

  // A frame of one byte is sent without.
  lemma {:induction false} TinyFrame(s: Stream, st: SenderState, f: Frame)
    requires |f.data| == 1
    ensures Fits(f) && |Emitted(s, st, f, RATIO)| == PacketCount(|f.data|)
  {
    assert PacketCount(1) == 1 && Share(1, RATIO) == 0;
    hide DataPackets, PacketCount, Share;
  }

  // ----- packets on their way

  function Arrivals(packets: seq<Packet>): (a: seq<Arrival>)
    ensures |a| == |packets| && forall i :: 0 <= i < |a| ==> a[i].packet == packets[i]
  {
    seq(|packets|, i requires 0 <= i < |packets| => Arrival(packets[i], 0))
  }

  // The first n data packets of a frame.
  lemma {:induction false} DataPrefix(crypto: Option<Cipher>, data: seq<Arrival>, g: Image)
    requires |data| <= |g.chunks|
    requires forall i :: 0 <= i < |data| ==> IsOf(crypto, data[i], g) && data[i].packet.hdr.packetIndex == i
    ensures Flags(|g.chunks|, data) == seq(|g.chunks|, i => i < |data|)
    ensures forall m: nat :: ParityFlags(m, data) == seq(m, _ => false)
  {
    hide IsOf;
    if data != [] {
      var n := |data| - 1;
      DataPrefix(crypto, data[..n], g);
      DataIsNotParity(crypto, data[n], g);
    }
  }

  lemma {:induction false} ParityBehind(n: nat, data: seq<Arrival>, tail: seq<Arrival>)
    requires forall i :: 0 <= i < |tail| ==> IsParity(tail[i])
    ensures Flags(n, data + tail) == Flags(n, data)
  {
    hide IsParity;
    if tail == [] {
      assert data + tail == data;
    } else {
      var t := tail[..|tail| - 1];
      assert (data + tail)[..|data + tail| - 1] == data + t;
      assert (data + tail)[|data + tail| - 1] == tail[|tail| - 1];
      ParityBehind(n, data, t);
    }
  }

  // The frame's data packets without the last.
  ghost function Heads(s: Stream, st: SenderState, f: Frame, ratio: real): seq<Packet>
    requires PacketCount(|f.data|) > 0
  {
    Emitted(s, st, f, ratio)[..PacketCount(|f.data|) - 1]
  }

  ghost function Tail(s: Stream, st: SenderState, f: Frame, ratio: real): seq<Packet> {
    Emitted(s, st, f, ratio)[PacketCount(|f.data|)..]
  }

  lemma {:induction false} HeadsAre(s: Stream, st: SenderState, f: Frame, ratio: real)
    requires CipherOk(s) && Fits(f) && PacketCount(|f.data|) > 0
    ensures var data, g := Arrivals(Heads(s, st, f, ratio)), ImageOf(f);
      && |data| == PacketCount(|f.data|) - 1 && |g.chunks| == PacketCount(|f.data|)
      && (forall i :: 0 <= i < |data| ==> IsOf(s.crypto, data[i], g) && data[i].packet.hdr.packetIndex == i)
      && (forall i :: 0 <= i < |data| ==> FromEmission(s, st, f, ratio, data[i]))
  {
    hide Emitted, PacketCount, Fits, IsOf, ImageOf, Lawful;
    FittingCount(f);
    var data, g := Arrivals(Heads(s, st, f, ratio)), ImageOf(f);
    forall i | 0 <= i < |data| ensures IsOf(s.crypto, data[i], g) && data[i].packet.hdr.packetIndex == i {
      DataFirst(s, st, f, ratio, i);
      SentIsOf(s, st, f, i, data[i]);
    }
  }

  lemma {:induction false} TailsAre(s: Stream, st: SenderState, f: Frame, ratio: real, tail: seq<Packet>)
    requires forall i :: 0 <= i < |tail| ==> tail[i] in Tail(s, st, f, ratio)
    ensures forall i :: 0 <= i < |tail| ==>
      IsParity(Arrivals(tail)[i]) && FromEmission(s, st, f, ratio, Arrivals(tail)[i])
  {
    hide Emitted, PacketCount;
    var n := PacketCount(|f.data|);
    forall i | 0 <= i < |tail|
      ensures IsParity(Arrivals(tail)[i]) && FromEmission(s, st, f, ratio, Arrivals(tail)[i])
    {
      var j :| 0 <= j < |Tail(s, st, f, ratio)| && Tail(s, st, f, ratio)[j] == tail[i];
      assert Emitted(s, st, f, ratio)[n + j] == tail[i];
      ParityIsParity(s, st, f, ratio, n + j);
    }
  }

  // Those, then some of the frame's parity.
  lemma {:induction false} WithoutLast(s: Stream, st: SenderState, f: Frame, ratio: real, tail: seq<Packet>)
    requires CipherOk(s) && Fits(f) && PacketCount(|f.data|) > 0
    requires forall i :: 0 <= i < |tail| ==> tail[i] in Tail(s, st, f, ratio)
    ensures LosesOnly(s, st, f, ratio, Arrivals(Heads(s, st, f, ratio) + tail), PacketCount(|f.data|) - 1)
    ensures forall m: nat :: ParityFlags(m, Arrivals(Heads(s, st, f, ratio))) == seq(m, _ => false)
  {
    hide Emitted, PacketCount, Fits, Flags, IsOf, ParityFlags, ImageOf, CipherOk, FromEmission, IsParity, Heads, Tail;
    var k, data, rest := PacketCount(|f.data|), Arrivals(Heads(s, st, f, ratio)), Arrivals(tail);
    HeadsAre(s, st, f, ratio);
    TailsAre(s, st, f, ratio, tail);
    DataPrefix(s.crypto, data, ImageOf(f));
    ParityBehind(k, data, rest);
    assert Arrivals(Heads(s, st, f, ratio) + tail) == data + rest;
    assert seq(k, i => i < k - 1) == AllBut(k, k - 1);
  }

  // ----- the runs

  lemma {:induction false} PlainHasTwoParity(st: SenderState, f: Frame)
    requires |f.data| == 4 * MAX_PAYLOAD + 1
    ensures |Emitted(PLAIN, st, f, RATIO)| == 7 && ParitySent(PLAIN, st, f, RATIO) == 2 && PacketCount(|f.data|) == 5
  {
    hide Emitted, ParitySent, PacketCount, Fits, Sealed, ShardSize;
    FivePackets(f);
    PlainShards(PLAIN, st, f);
    TwoParity(PLAIN, st, f);
  }

  lemma {:induction false} FromStart()
    ensures Idle(INITIAL) && StartsAnother(NEXT, SECOND)
  {
    InitialIsIdle();
  }

  lemma {:induction false} SentAndArrived(s: Stream, st: SenderState, f: Frame)
    requires ParitySent(s, st, f, RATIO) > 0
    ensures ArrivesWhole(s, st, f, RATIO, Arrivals(Emitted(s, st, f, RATIO)))
  {
    hide Emitted;
  }

  // The first frame arrives whole. Of the second only the last data packet is lost, and both its own parity
  // packets arrive: the receiver delivers wrong bytes all the same.
  lemma {:induction false} StaleParityHappens()
    ensures var late := AfterFrame(PLAIN, START, FIRST, RATIO);
      PacketCount(|SECOND.data|) > 0 &&
      var second := Arrivals(Heads(PLAIN, late, SECOND, RATIO) + Tail(PLAIN, late, SECOND, RATIO));
      Corrupts(INITIAL, Arrivals(Emitted(PLAIN, START, FIRST, RATIO)), second, NEXT, SECOND, 4)
  {
    hide Emitted, AfterFrame, Corrupts, Idle, StartsAnother, Twins, Heads, Tail, ArrivesWhole, LosesOnly, PacketCount,
      Fits;
    var late := AfterFrame(PLAIN, START, FIRST, RATIO);
    FromStart();
    TheyAreTwins();
    FivePackets(SECOND);
    PlainHasTwoParity(START, FIRST);
    SentAndArrived(PLAIN, START, FIRST);
    WithoutLast(PLAIN, late, SECOND, RATIO, Tail(PLAIN, late, SECOND, RATIO));
    var second := Arrivals(Heads(PLAIN, late, SECOND, RATIO) + Tail(PLAIN, late, SECOND, RATIO));
    StaleParityCorrupts(INITIAL, PLAIN, START, FIRST, RATIO, Arrivals(Emitted(PLAIN, START, FIRST, RATIO)),
                        SECOND, 4, RATIO, second, NEXT);
  }

  function TinyJobs(): (jobs: seq<Job>)
    ensures |jobs| == 15 && forall j :: 0 <= j < |jobs| ==> |jobs[j].frame.data| == 1 && jobs[j].ratio == RATIO
  {
    seq(15, j requires 0 <= j < 15 => Job(Frame(2 + j, [0], false, 0), RATIO))
  }

  ghost function SentParts(s: Stream, st: SenderState, jobs: seq<Job>): (parts: seq<seq<Arrival>>)
    ensures |parts| == |jobs| && forall j :: 0 <= j < |jobs| ==> parts[j] == Arrivals(SentFor(s, st, jobs, j))
  {
    seq(|jobs|, j requires 0 <= j < |jobs| => Arrivals(SentFor(s, st, jobs, j)))
  }

  lemma {:induction false} TinyJobsAreQuiet(s: Stream, st: SenderState)
    ensures Quiet(s, st, TinyJobs(), SentParts(s, st, TinyJobs()))
  {
    hide Emitted, StateBefore, TinyJobs, PacketCount, Fits;
    var jobs := TinyJobs();
    forall j | 0 <= j < |jobs|
      ensures Fits(jobs[j].frame) && |SentFor(s, st, jobs, j)| == PacketCount(|jobs[j].frame.data|)
    {
      TinyFrame(s, StateBefore(s, st, jobs, j), jobs[j].frame);
    }
  }

  // The second of two parity packets alone.
  lemma {:induction false} SecondParityOnly(s: Stream, st: SenderState, f: Frame, data: seq<Arrival>, a: Arrival)
    requires Fits(f) && |Emitted(s, st, f, RATIO)| == 7 && PacketCount(|f.data|) == 5
    requires a.packet == Emitted(s, st, f, RATIO)[6] && ParityFlags(2, data) == seq(2, _ => false)
    ensures ParityFlags(2, data + [a]) == [false, true] && OnlyFirstLost([false, true])
  {
    hide Emitted, PacketCount, Fits;
    ParityFieldsSurvive(s, st, f, RATIO, 6);
    assert (data + [a])[..|data + [a]| - 1] == data;
    assert [false, true][1];
  }

  // Sixteen frames later, in the same slot: of the second frame the last data packet and the first parity packet
  // are lost. The other parity packet would do, and yet wrong bytes are delivered.
  lemma {:induction false} LeftoverFlagHappens()
    ensures var mid, jobs := AfterFrame(PLAIN, START, FIRST, RATIO), TinyJobs();
      var late, parts := StateBefore(PLAIN, mid, jobs, |jobs|), SentParts(PLAIN, mid, jobs);
      PacketCount(|SECOND.data|) > 0 && |Emitted(PLAIN, late, SECOND, RATIO)| == 7 &&
      var second := Arrivals(Heads(PLAIN, late, SECOND, RATIO) + [Emitted(PLAIN, late, SECOND, RATIO)[6]]);
      var before := Arrivals(Emitted(PLAIN, START, FIRST, RATIO)) + Flatten(parts, |parts|);
      Corrupts(INITIAL, before, second, NEXT, SECOND, 4)
  {
    hide Emitted, AfterFrame, StateBefore, Corrupts, Idle, StartsAnother, Twins, Heads, ArrivesWhole, LosesOnly,
      PacketCount, Fits, Quiet, Flatten, ParityFlags, ParitySent, OnlyFirstLost, TinyJobs, SentParts;
    var mid, jobs := AfterFrame(PLAIN, START, FIRST, RATIO), TinyJobs();
    var late, parts := StateBefore(PLAIN, mid, jobs, |jobs|), SentParts(PLAIN, mid, jobs);
    FromStart();
    TheyAreTwins();
    FivePackets(SECOND);
    PlainHasTwoParity(START, FIRST);
    PlainHasTwoParity(late, SECOND);
    SentAndArrived(PLAIN, START, FIRST);
    TinyJobsAreQuiet(PLAIN, mid);
    var last := Emitted(PLAIN, late, SECOND, RATIO)[6];
    var data := Arrivals(Heads(PLAIN, late, SECOND, RATIO));
    assert Tail(PLAIN, late, SECOND, RATIO)[1] == last;
    WithoutLast(PLAIN, late, SECOND, RATIO, [last]);
    var second := Arrivals(Heads(PLAIN, late, SECOND, RATIO) + [last]);
    assert second == data + Arrivals([last]) == data + [Arrivals([last])[0]];
    SecondParityOnly(PLAIN, late, SECOND, data, Arrivals([last])[0]);
    LeftoverFlagCorrupts(INITIAL, PLAIN, START, FIRST, RATIO, Arrivals(Emitted(PLAIN, START, FIRST, RATIO)),
                         jobs, parts, SECOND, 4, RATIO, second, NEXT);
  }

  // The same loss at the start: the frame comes back.
  lemma {:induction false} LostPacketComesBack()
    ensures Valid(INITIAL) && PacketCount(|SECOND.data|) > 0
    ensures var second := Arrivals(Heads(PLAIN, START, SECOND, RATIO) + Tail(PLAIN, START, SECOND, RATIO));
      var d := Step(None, Run(None, INITIAL, second).0, NEXT).1;
      d != [] && d[0].frameNumber == 1 && d[0].data == SECOND.data + Zero(MAX_PAYLOAD - 1)
  {
    hide Emitted, PacketCount, Fits, ParityFlags, Heads, Tail, Flags, Run, Step, Count, FromEmission, SomeKept, All,
      FirstAt, ParitySent, RebuiltDelivery;
    FivePackets(SECOND);
    var heads, tail := Heads(PLAIN, START, SECOND, RATIO), Tail(PLAIN, START, SECOND, RATIO);
    var second := Arrivals(heads + tail);
    InitialIsIdle();
    PlainHasTwoParity(START, SECOND);
    HeadsCount(PLAIN, START, SECOND);
    TailPackets(PLAIN, START, SECOND);
    WithoutLast(PLAIN, START, SECOND, RATIO, tail);
    BothParity(PLAIN, START, SECOND, second, 4);
    CountAllBut(5, 4);
    BlankIsRelit(INITIAL, second, 2, 0);
    RecoveryDelivers(PLAIN, START, SECOND, RATIO, INITIAL, second, NEXT);
    RebuiltLast(SECOND, 1, FirstAt(second));
  }

  lemma {:induction false} RebuiltLast(f: Frame, last: Byte, at: int)
    requires Fits(f) && PacketCount(|f.data|) == 5 && f.data == Zero(4 * MAX_PAYLOAD) + [last]
    ensures var d := RebuiltDelivery(f, AllBut(5, 4), at);
      d.frameNumber == f.number % 0x1_0000 && d.data == f.data + Zero(MAX_PAYLOAD - 1)
  {
    hide PacketCount, Fits, Chunk;
    ChunkOf(last, 4);
  }

  // ----- two losses in a row

  lemma {:induction false} PartIsRepairable(st: SenderState, f: Frame)
    requires |f.data| == 4 * MAX_PAYLOAD + 1
    ensures PacketCount(|f.data|) > 0
    ensures var part := Arrivals(Heads(PLAIN, st, f, RATIO) + Tail(PLAIN, st, f, RATIO));
      Repairable(PLAIN, st, f, RATIO, part) && Flags(PacketCount(|f.data|), part) == AllBut(5, 4)
  {
    hide Emitted, PacketCount, Fits, ParityFlags, Flags, Count, FromEmission, SomeKept, All, IsParity, IsOf, Heads,
      Tail;
    FivePackets(f);
    PlainHasTwoParity(st, f);
    HeadsCount(PLAIN, st, f);
    TailPackets(PLAIN, st, f);
    var heads, tail := Heads(PLAIN, st, f, RATIO), Tail(PLAIN, st, f, RATIO);
    var part := Arrivals(heads + tail);
    WithoutLast(PLAIN, st, f, RATIO, tail);
    HeadsAre(PLAIN, st, f, RATIO);
    assert part[0] == Arrivals(heads)[0];
    DataIsNotParity(None, part[0], ImageOf(f));
    BothParity(PLAIN, st, f, part, 4);
    CountAllBut(5, 4);
  }

  // Two frames in a row lose their last packet: the first comes back when the second starts, the second with the
  // packet behind it.
  lemma {:induction false} TwoLossesComeBack()
    ensures Valid(INITIAL) && PacketCount(|FIRST.data|) > 0 && PacketCount(|SECOND.data|) > 0
    ensures var late := AfterFrame(PLAIN, START, FIRST, RATIO);
      var first := Arrivals(Heads(PLAIN, START, FIRST, RATIO) + Tail(PLAIN, START, FIRST, RATIO));
      var second := Arrivals(Heads(PLAIN, late, SECOND, RATIO) + Tail(PLAIN, late, SECOND, RATIO));
      var mid := Run(None, INITIAL, first + second);
      var d := Step(None, mid.0, NEXT).1;
      && |mid.1| == 1 && mid.1[0].data == FIRST.data + Zero(MAX_PAYLOAD - 1)
      && d != [] && d[0].data == SECOND.data + Zero(MAX_PAYLOAD - 1)
  {
    hide Emitted, PacketCount, Fits, ParityFlags, Flags, Run, Step, Heads, Tail, Repairable, FirstAt, RebuiltDelivery,
      AfterFrame, All;
    var late, jobs := AfterFrame(PLAIN, START, FIRST, RATIO), [Job(FIRST, RATIO), Job(SECOND, RATIO)];
    PartIsRepairable(START, FIRST);
    PartIsRepairable(late, SECOND);
    FivePackets(FIRST);
    FivePackets(SECOND);
    InitialIsIdle();
    InitialIsTidied();
    var first := Arrivals(Heads(PLAIN, START, FIRST, RATIO) + Tail(PLAIN, START, FIRST, RATIO));
    var second := Arrivals(Heads(PLAIN, late, SECOND, RATIO) + Tail(PLAIN, late, SECOND, RATIO));
    var parts := [first, second];
    assert StateBefore(PLAIN, START, jobs, 0) == START && StateBefore(PLAIN, START, jobs, 1) == late;
    BurstComesBack(PLAIN, START, jobs, INITIAL, parts, NEXT);
    assert Flatten(parts, 0) == [] && Flatten(parts, 1) == [] + first == first;
    assert Flatten(parts, 2) == first + second;
    TwoRebuilt(jobs, parts);
    RebuiltLast(FIRST, 0, FirstAt(first));
    RebuiltLast(SECOND, 1, FirstAt(second));
  }

  lemma {:induction false} InitialIsTidied()
    ensures Tidied(START, INITIAL.slots, 0, -1)
  {
    forall j | 0 <= j < SLOTS ensures INITIAL.slots[SlotOf(START, j)] == EMPTY_SLOT { SlotsDiffer(START, j, j + 1); }
  }

  lemma {:induction false} TwoRebuilt(jobs: seq<Job>, parts: seq<seq<Arrival>>)
    requires |jobs| == |parts| == 2 && Fits(jobs[0].frame) && Fits(jobs[1].frame)
    ensures var d := AllRebuilt(jobs, parts, 2);
      && |d| == 2 && AllRebuilt(jobs, parts, 1) == d[..1]
      && d[0] == RebuiltDelivery(jobs[0].frame, Flags(PacketCount(|jobs[0].frame.data|), parts[0]), FirstAt(parts[0]))
      && d[1] == RebuiltDelivery(jobs[1].frame, Flags(PacketCount(|jobs[1].frame.data|), parts[1]), FirstAt(parts[1]))
  {
    hide RebuiltDelivery, FirstAt, PacketCount, Flags, Fits;
    assert AllRebuilt(jobs, parts, 0) == [];
  }

  // ----- frames with the same number

  // Two frames of two packets whose numbers agree modulo 2^16. Each loses one packet, and what is left of them is
  // delivered as one frame: the first packet of the one and the second of the other.
  lemma {:induction false} AliasedFramesMix(s: Stream, st: SenderState, a: Frame, st': SenderState, b: Frame,
                                            r: State, x: Arrival, y: Arrival)
    requires CipherOk(s) && Fits(a) && Fits(b) && PacketCount(|a.data|) == PacketCount(|b.data|) == 2
    requires a.number % 0x1_0000 == b.number % 0x1_0000 && a.isIdr == b.isIdr && a.hostProcTime == b.hostProcTime
    requires Valid(r) && r.current == BLANK
    requires x.packet == DataPackets(s, st, a)[0] && y.packet == DataPackets(s, st', b)[1]
    ensures Run(s.crypto, r, [x, y]).1 ==
      [Delivery(a.number % 0x1_0000, Chunk(a.data, 0) + Chunk(b.data, 1), x.at, a.isIdr, 2)]
  {
    hide Run, PacketCount, Fits, Chunk, DataPackets, Lawful, ValidPending, ValidSlot;
    var p, q := Chunk(a.data, 0), Chunk(b.data, 1);
    var mixed, part := Image(a.number % 0x1_0000, [p, q], a.isIdr, a.hostProcTime), [x, y];
    SentIsOf(s, st, a, 0, x);
    SentIsOf(s, st', b, 1, y);
    InMixed(s.crypto, x, ImageOf(a), mixed);
    InMixed(s.crypto, y, ImageOf(b), mixed);
    BothArrive(part);
    OneFrame(s.crypto, r, mixed, part);
    assert Concat([p, q][..1][..0]) == [] && [p, q][..1] == [p] && Concat([p]) == [] + p == p;
    assert Concat([p, q]) == p + q;
  }

  lemma {:induction false} InMixed(crypto: Option<Cipher>, a: Arrival, g: Image, mixed: Image)
    requires IsOf(crypto, a, g) && |g.chunks| == |mixed.chunks| && g.number == mixed.number
    requires g.isIdr == mixed.isIdr && g.hostProcTime == mixed.hostProcTime
    requires g.chunks[a.packet.hdr.packetIndex] == mixed.chunks[a.packet.hdr.packetIndex]
    ensures IsOf(crypto, a, mixed)
  {}

  lemma {:induction false} BothArrive(part: seq<Arrival>)
    requires |part| == 2 && !IsParity(part[0]) && !IsParity(part[1])
    requires part[0].packet.hdr.packetIndex == 0 && part[1].packet.hdr.packetIndex == 1
    ensures Flags(2, part) == [true, true] && All(Flags(2, part)) && Tidy(2, part)
    ensures HasData(part) && FirstAt(part) == part[0].at
  {
    assert part[..1] == [part[0]] && part[..1][..0] == [];
    assert Flags(2, part[..1]) == [true, false] && Flags(2, part[..0]) == [false, false];
    NotAll([true, false], 1);
    NotAll([false, false], 1);
    assert HasData(part[..1]);
  }

  // That is the case that the loss-only theorems set apart.
  lemma {:induction false} TheyAlias(a: Job, b: Job)
    requires a.frame.number % 0x1_0000 == b.frame.number % 0x1_0000
    ensures !NoAlias([a, b], [[true, false], [false, true]])
  {
    var keeps := [[true, false], [false, true]];
    assert keeps[0][0] && !keeps[0][1] && keeps[1][1];
    assert NextAfterPartial(keeps, 0, 1);
  }

  // ----- encrypted

  // A cipher that only appends its tag is lawful enough for all of this.
  lemma {:induction false} SomethingEncrypts() returns (s: Stream)
    ensures Encrypts(s)
  {
    var c := Cipher((n: Nonce, p: seq<Byte>) => p + Zero(TAG_SIZE),
                    (n: Nonce, e: seq<Byte>) => if |e| > TAG_SIZE then e[..|e| - TAG_SIZE] else []);
    forall n: Nonce, p: seq<Byte> | p != [] ensures c.encrypt(n, p) != [] && c.decrypt(n, c.encrypt(n, p)) == p {
      assert (p + Zero(TAG_SIZE))[..|p|] == p;
    }
    s := Stream(0, Some(c));
  }

  lemma {:induction false} BothParity(s: Stream, st: SenderState, f: Frame, part: seq<Arrival>, i: nat)
    requires Fits(f) && |Emitted(s, st, f, RATIO)| == 7 && PacketCount(|f.data|) == 5 && i + 2 == |part|
    requires part[i].packet == Emitted(s, st, f, RATIO)[5] && part[i + 1].packet == Emitted(s, st, f, RATIO)[6]
    ensures Count(ParityFlags(2, part), 2) == 2
  {
    hide Emitted, PacketCount, Fits, ParityFlags;
    ParityFieldsSurvive(s, st, f, RATIO, 5);
    ParityFieldsSurvive(s, st, f, RATIO, 6);
    ParityFlagSet(2, part, i);
    ParityFlagSet(2, part, i + 1);
    CountFull(ParityFlags(2, part), 2);
  }

  // Encrypted, the same loss of one data packet of five, with both parity packets at hand, ends in a delivery
  // that is longer than the frame.
  lemma {:induction false} EncryptedLossHappens(s: Stream)
    requires Encrypts(s)
    ensures Valid(INITIAL) && PacketCount(|FIRST.data|) > 0
    ensures var part := Arrivals(Heads(s, START, FIRST, RATIO) + Tail(s, START, FIRST, RATIO));
      var d := Flush(Run(s.crypto, INITIAL, part).0).1;
      |d| == 1 && |d[0].data| > |FIRST.data|
  {
    hide Emitted, PacketCount, Fits, ParityFlags, Heads, Flags, Run, Flush, Sealed, ShardSize, Encrypts, AllTooLarge,
      Count, FromEmission, SomeKept, All;
    FivePackets(FIRST);
    InitialIsIdle();
    EncryptedShards(s, START, FIRST);
    TwoParity(s, START, FIRST);
    var heads, tail := Heads(s, START, FIRST, RATIO), Tail(s, START, FIRST, RATIO);
    var part := Arrivals(heads + tail);
    WithoutLast(s, START, FIRST, RATIO, tail);
    HeadsCount(s, START, FIRST);
    BothParity(s, START, FIRST, part, 4);
    CountAllBut(5, 4);
    EmptyIsTooLarge();
    BlankIsRelit(INITIAL, part, 2, 0);
    BlankFlush(INITIAL, part);
    EncryptedLossIsNotRepaired(s, START, FIRST, RATIO, INITIAL, part);
  }

  lemma {:induction false} EncryptedShards(s: Stream, st: SenderState, f: Frame)
    requires Encrypts(s) && Fits(f) && PacketCount(|f.data|) >= 2
    ensures CipherOk(s) && ShardSize(Sealed(s, st, f)) > 0
  {
    hide ShardSize, PacketCount, Fits, DataPackets, Payloads;
    EncryptedShardSize(s, st, f);
  }

  lemma {:induction false} HeadsCount(s: Stream, st: SenderState, f: Frame)
    requires PacketCount(|f.data|) == 5 && |Emitted(s, st, f, RATIO)| == 7
    ensures |Heads(s, st, f, RATIO)| == 4 && |Tail(s, st, f, RATIO)| == 2
  {
    hide Emitted;
  }

  lemma {:induction false} TailPackets(s: Stream, st: SenderState, f: Frame)
    requires PacketCount(|f.data|) == 5 && |Emitted(s, st, f, RATIO)| == 7
    ensures var sent := Emitted(s, st, f, RATIO); Tail(s, st, f, RATIO) == [sent[5], sent[6]]
  {
    hide Emitted;
  }

  lemma {:induction false} EmptyIsTooLarge()
    ensures AllTooLarge(INITIAL.slots)
  {}
}
