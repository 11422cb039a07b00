// Where recovery goes wrong in the code as it stands: parity of one frame used to rebuild another.
module RecoveryFailures {
  import opened Wrappers
  import opened LinearAlgebra
  import opened ErasureCode
  import opened VideoPackets
  import opened VideoSending
  import opened VideoReceiving
  import opened FrameTracking
  import opened FrameRuns
  import opened VideoPipeline
  import opened FrameLimits
  import opened Recovery
  import opened RecoveryDelivery

  // ----- parity of different data

  lemma {:induction false} CountOnlyAt(p: seq<bool>, n: nat, l: nat)
    requires n <= |p| && forall i :: 0 <= i < n && i != l ==> !p[i]
    ensures Count(p, n) <= if l < n then 1 else 0
  {
    if n > 0 { CountOnlyAt(p, n - 1, l); }
  }

  lemma {:induction false} CountWithHole(p: seq<bool>, low: nat, n: nat, hole: nat)
    requires low <= hole <= n <= |p| && (hole < n ==> !p[hole])
    ensures Count(p, n) <= Count(p, low) + (n - low) - if hole < n then 1 else 0
  {
    if n > low { CountWithHole(p, low, n - 1, if hole < n then hole else n - 1); }
  }

  // The two differ in shard l and in no other.
  predicate DifferAt(a: seq<Vector>, b: seq<Vector>, l: nat, size: nat) {
    && l < |a| == |b| && (forall i :: 0 <= i < |a| && i != l ==> a[i] == b[i])
    && !SameBytes(a[l], b[l], size)
  }

  // Then all their parity shards differ, by the minimum distance of the code.
  lemma {:induction false} ParityDiffers(m: nat, a: seq<Vector>, b: seq<Vector>, l: nat, size: nat, j: nat)
    requires DifferAt(a, b, l, size) && |a| + m <= 256 && j < m
    ensures CodeShard(|a|, m, a, size, |a| + j) != CodeShard(|a|, m, b, size, |a| + j)
  {
    hide EncMatrix, CodeShard;
    var k := |a|;
    SameDataBytes(a, b, size);
    MinimumDistance(k, m, a, b, size);
    var d := Differences(k, m, a, b, size);
    forall i | 0 <= i < k && i != l ensures !d[i] {
      DataShards(k, m, a, size, i);
      DataShards(k, m, b, size, i);
    }
    CountOnlyAt(d, k, l);
    if !d[k + j] { CountWithHole(d, k, k + m, k + j); }
  }

  // ----- one wrong shard

  function AllBut(k: nat, l: nat): (f: seq<bool>)
    ensures |f| == k && forall i :: 0 <= i < k ==> f[i] == (i != l)
  {
    seq(k, i => i != l)
  }

  lemma {:induction false} PickedStays(present: seq<bool>, k: nat, n: nat, more: nat, i: nat)
    requires n <= more <= |present| && i in Picked(present, k, n)
    ensures i in Picked(present, k, more)
  {
    if n < more { PickedStays(present, k, n, more - 1, i); }
  }

  lemma {:induction false} NoneBetween(present: seq<bool>, k: nat, n: nat, l: nat)
    requires l < k <= n <= |present| && !present[l] && forall i :: k <= i < n ==> !present[i]
    ensures Count(present, n) < k
  {
    if n > k { NoneBetween(present, k, n - 1, l); } else { CountBelow(present, k, l); }
  }

  // With a data shard missing, the first parity shard that is there is picked.
  lemma {:induction false} FirstParityIsPicked(present: seq<bool>, k: nat, j: nat, l: nat)
    requires l < k <= k + j < |present| && !present[l] && present[k + j]
    requires forall i :: k <= i < k + j ==> !present[i]
    ensures k + j in Picked(present, k, |present|)
  {
    PickedIsChoice(present, k, k + j);
    NoneBetween(present, k, k + j, l);
    assert k + j in Picked(present, k, k + j + 1);
    PickedStays(present, k, k + j + 1, |present|, k + j);
  }

  // The first parity shard present in a slot belongs to other data than the pending frame's.
  ghost predicate ForeignShard(s: FecSlot, a: seq<Vector>, size: nat, j: nat) {
    && ValidSlot(s) && s.isRs && |a| + s.parityShardCount <= 256 && s.shardSize == size
    && j < s.parityShardCount && s.parityPresent[j] && (forall i :: 0 <= i < j ==> !s.parityPresent[i])
    && s.parityShards[j] == CodeShard(|a|, s.parityShardCount, a, size, |a| + j)
  }

  lemma {:induction false} ForeignParityDisagrees(c: PendingFrame, s: FecSlot, a: seq<Vector>, b: seq<Vector>, l: nat,
                                                  size: nat, j: nat)
    requires Holds(c, b) && DifferAt(a, b, l, size) && !c.received[l]
    requires ForeignShard(s, a, size, j) && RecoverySize(c, s) == size
    ensures !ParityMatches(c, s, b)
  {
    hide RecoverySize, EncMatrix, CodeShard;
    var k, m := |b|, s.parityShardCount;
    var present := RecoveryPresent(c, s);
    FirstParityIsPicked(present, k, j, l);
    ParityDiffers(m, a, b, l, size, j);
    var mine, other := CodeShard(k, m, b, size, k + j), CodeShard(k, m, a, size, k + j);
    var i :| 0 <= i < size && other[i] != mine[i];
    assert ByteAt(RecoveryShards(c, s)[k + j], i) == other[i];
  }

  // Of a frame of which one packet is missing, recovery with such a shard rebuilds that packet wrongly.
  lemma {:induction false} ForeignShardRebuildsWrong(st: State, a: seq<Vector>, b: seq<Vector>, l: nat, size: nat,
                                                     j: nat)
    requires Valid(st) && Holds(st.current, b) && st.current.received == AllBut(|b|, l)
    requires DifferAt(a, b, l, size) && forall i :: 0 <= i < |b| ==> |b[i]| <= size
    requires FirstUsable(st.current, st.slots, 0) < |st.slots|
    requires ForeignShard(st.slots[FirstUsable(st.current, st.slots, 0)], a, size, j)
    ensures var d := Recover(st).current;
      && d.receivedCount == d.totalPackets == |d.packets| == |b|
      && (forall i :: 0 <= i < |b| && i != l ==> d.packets[i] == b[i])
      && |d.packets[l]| == size && !Restores(d.packets[l], b[l])
  {
    hide Recover, ParityMatches, RecoverySize, FirstUsable, Restores;
    var c, s := st.current, st.slots[FirstUsable(st.current, st.slots, 0)];
    RecoverySizeIs(c, s, b, size);
    ForeignParityDisagrees(c, s, a, b, l, size, j);
    RecoveryIsExactIff(st, b);
    RecoveryUpToSize(st, b);
    var d := Recover(st).current;
    if Restores(d.packets[l], b[l]) {
      forall i | 0 <= i < |b| ensures Restores(d.packets[i], b[i]) {
        if i != l { ItselfRestored(b[i]); }
      }
    }
  }

  lemma {:induction false} ItselfRestored(v: Vector)
    ensures Restores(v, v)
  {
    PaddedWhole(v, |v|);
  }

  // Packets that differ in one place, with the same length there, do not add up to the same.
  lemma {:induction false} ConcatDiffers(a: seq<Vector>, b: seq<Vector>, l: nat)
    requires l < |a| == |b| && |a[l]| == |b[l]| && a[l] != b[l]
    requires forall i :: 0 <= i < |a| && i != l ==> a[i] == b[i]
    ensures |Concat(a)| == |Concat(b)| && Concat(a) != Concat(b)
  {
    var n := |a| - 1;
    if l == n {
      assert a[..n] == b[..n];
      SameTail(Concat(a[..n]), a[n], b[n]);
    } else {
      ConcatDiffers(a[..n], b[..n], l);
      SameHead(Concat(a[..n]), Concat(b[..n]), a[n]);
    }
  }

  lemma {:induction false} SameTail(head: Vector, x: Vector, y: Vector)
    ensures head + x == head + y ==> x == y
  {
    if head + x == head + y {
      assert x == (head + x)[|head|..] && y == (head + y)[|head|..];
    }
  }

  lemma {:induction false} SameHead(x: Vector, y: Vector, tail: Vector)
    requires |x| == |y|
    ensures x + tail == y + tail ==> x == y
  {
    if x + tail == y + tail {
      assert x == (x + tail)[..|x|] && y == (y + tail)[..|y|];
    }
  }

  // A frame with one packet rebuilt wrongly, next to the same frame rebuilt rightly.
  lemma {:induction false} WrongData(f: Frame, packets: seq<Vector>, l: nat)
    requires Fits(f) && |packets| == PacketCount(|f.data|) >= 2 && l < |packets|
    requires forall i :: 0 <= i < |packets| && i != l ==> packets[i] == Chunks(f.data)[i]
    requires |packets[l]| == MAX_PAYLOAD && !Restores(packets[l], Chunks(f.data)[l])
    ensures var pad := PaddingOf(f, AllBut(|packets|, l));
      |Concat(packets)| == |f.data| + pad && Concat(packets) != f.data + Zero(pad)
  {
    hide PacketCount, Chunk, Fits, PaddingOf;
    FullSize(f);
    var right := packets[l := Padded(Chunks(f.data)[l], MAX_PAYLOAD)];
    RebuiltData(f, AllBut(|packets|, l), right);
    ConcatDiffers(packets, right, l);
  }

  // ----- what such a shard leads to

  // Two frames of as many packets that differ in packet l only.
  predicate Twins(a: Frame, b: Frame, l: nat) {
    && Fits(a) && Fits(b) && PacketCount(|a.data|) == PacketCount(|b.data|) >= 2
    && DifferAt(Chunks(a.data), Chunks(b.data), l, MAX_PAYLOAD)
  }

  // The frame is delivered with the length it should have, packet l being rebuilt, but not with its bytes.
  predicate DeliveredWrongly(d: seq<Delivery>, f: Frame, l: nat)
    requires Fits(f)
  {
    var pad := PaddingOf(f, AllBut(PacketCount(|f.data|), l));
    && d != [] && d[0].frameNumber == f.number % 0x1_0000
    && |d[0].data| == |f.data| + pad && d[0].data != f.data + Zero(pad)
  }

  // After what came before, these arrivals and the next frame's packet make the receiver deliver the frame wrongly.
  ghost predicate Corrupts(r: State, before: seq<Arrival>, arrivals: seq<Arrival>, next: Arrival, f: Frame, l: nat) {
    && Valid(r) && Fits(f)
    && var mid := Run(None, Run(None, r, before).0, arrivals).0;
       DeliveredWrongly(Step(None, mid, next).1, f, l)
  }

  lemma {:induction false} CountAllBut(k: nat, l: nat)
    requires l < k
    ensures Count(AllBut(k, l), k) == k - 1 && !All(AllBut(k, l))
    ensures k >= 2 ==> SomeKept(AllBut(k, l))
  {
    var f := AllBut(k, l);
    CountSet(f, l, k);
    CountFull(f[l := true], k);
    assert !f[l];
    if k >= 2 { assert f[if l == 0 then 1 else 0]; }
  }

  // A data packet of another frame.
  predicate StartsAnother(next: Arrival, f: Frame) {
    !IsParity(next) && next.packet.hdr.frameNumber != f.number % 0x1_0000
  }

  lemma {:induction false} ForeignDelivery(mid: State, f: Frame, l: nat, a: seq<Vector>, at: int, j: nat, next: Arrival)
    requires Fits(f) && l < PacketCount(|f.data|) == |ImageOf(f).chunks| && PacketCount(|f.data|) >= 2 && Valid(mid)
    requires mid.current == Tracking(ImageOf(f), AllBut(PacketCount(|f.data|), l), at)
    requires DifferAt(a, Chunks(f.data), l, MAX_PAYLOAD) && FirstUsable(mid.current, mid.slots, 0) < SLOTS
    requires ForeignShard(mid.slots[FirstUsable(mid.current, mid.slots, 0)], a, MAX_PAYLOAD, j)
    requires StartsAnother(next, f)
    ensures DeliveredWrongly(Step(None, mid, next).1, f, l)
  {
    hide Recover, Step, FirstUsable, ForeignShard, Chunk, PacketCount, Concat, Fits, DifferAt, Restores, PaddingOf;
    var k, g := PacketCount(|f.data|), ImageOf(f);
    CountAllBut(k, l);
    TrackingHolds(g, AllBut(k, l), at);
    TrackingCounts(g, AllBut(k, l), at);
    FullSize(f);
    ForeignShardRebuildsWrong(mid, a, g.chunks, l, MAX_PAYLOAD, j);
    var d := Recover(mid).current;
    WrongData(f, d.packets, l);
    RecoverKeepsHeader(mid);
    FlushedFirst(mid, next);
  }

  // ----- parity still live in an earlier slot

  ghost function ParitySent(s: Stream, st: SenderState, f: Frame, ratio: real): nat {
    |Emitted(s, st, f, ratio)| - PacketCount(|f.data|)
  }

  // The frame has parity, and everything sent for it arrives.
  ghost predicate ArrivesWhole(s: Stream, st: SenderState, f: Frame, ratio: real, arrivals: seq<Arrival>) {
    ParitySent(s, st, f, ratio) > 0 && Carry(arrivals, Emitted(s, st, f, ratio))
  }

  // Of the frame's data packets exactly packet l is lost; parity packets may be lost too.
  ghost predicate LosesOnly(s: Stream, st: SenderState, f: Frame, ratio: real, arrivals: seq<Arrival>, l: nat) {
    && (forall i :: 0 <= i < |arrivals| ==> FromEmission(s, st, f, ratio, arrivals[i]))
    && Flags(PacketCount(|f.data|), arrivals) == AllBut(PacketCount(|f.data|), l)
  }

  lemma {:induction false} ParityFlagSet(m: nat, arrivals: seq<Arrival>, i: nat)
    requires i < |arrivals| && IsParity(arrivals[i]) && arrivals[i].packet.hdr.fecIndex < m
    ensures ParityFlags(m, arrivals)[arrivals[i].packet.hdr.fecIndex]
  {
    if i < |arrivals| - 1 { ParityFlagSet(m, arrivals[..|arrivals| - 1], i); }
  }

  function AllSet(m: nat): (f: seq<bool>)
    ensures |f| == m && forall i :: 0 <= i < m ==> f[i]
  {
    seq(m, _ => true)
  }

  // A frame that arrives whole is delivered, and leaves all its parity live in its slot.
  lemma {:induction false} WholeFrameLeavesParity(s: Stream, st: SenderState, f: Frame, ratio: real, r: State,
                                                  part: seq<Arrival>)
    requires s.crypto.None? && Fits(f) && PacketCount(|f.data|) >= 2 && Valid(r) && r.current == BLANK
    requires ArrivesWhole(s, st, f, ratio, part) && r.slots[st.fecGroupId % SLOTS].shardSize <= MAX_PAYLOAD
    ensures var after, m := Run(None, r, part).0, ParitySent(s, st, f, ratio);
      && after.current == BLANK
      && OwnSlot(after.slots[st.fecGroupId % SLOTS], Chunks(f.data), m, MAX_PAYLOAD, AllSet(m))
      && forall j :: 0 <= j < SLOTS && j != st.fecGroupId % SLOTS ==> after.slots[j] == r.slots[j]
  {
    hide Run, Emitted, Flags, Tidy, HasData, FirstAt, SlotsAfter, Concerns, All, PacketCount, Fits, ImageOf, OwnSlot,
      ParityFlags, Chunks, Holding, Valid;
    var k, m := PacketCount(|f.data|), ParitySent(s, st, f, ratio);
    ValidSlots(r);
    FullPart(s, st, f, ratio, part);
    OneFrame(None, r, ImageOf(f), part);
    CompleteIsBlank(None, ImageOf(f), part);
    forall j | 0 <= j < m ensures ParityFlags(m, part)[j] {
      ParityFieldsSurvive(s, st, f, ratio, k + j);
      ParityFlagSet(m, part, k + j);
    }
    assert ParityFlags(m, part) == AllSet(m);
    assert AllSet(m)[0];
    BlankIsRelit(r, part, m, st.fecGroupId % SLOTS);
    BlankFlush(r, part);
    LedSlots(s, st, f, ratio, r, part);
    PlainOwnSlot(s, st, f, ratio, r, part, AllSet(m));
  }

  lemma {:induction false} OwnIsForeign(slot: FecSlot, a: seq<Vector>, m: nat)
    requires OwnSlot(slot, a, m, MAX_PAYLOAD, AllSet(m)) && m > 0 && |a| + m <= 256
    ensures ForeignShard(slot, a, MAX_PAYLOAD, 0)
    ensures slot.dataShardCount == |a|
  {
    hide CodeShard;
  }

  // All packets but one and one parity shard are enough.
  lemma {:induction false} ServingIsUsable(c: PendingFrame, slot: FecSlot, k: nat)
    requires ValidPending(c) && c.totalPackets == k > 0 && c.receivedCount == k - 1
    requires ValidSlot(slot) && slot.isRs && slot.dataShardCount == k
    requires slot.parityShardCount > 0 && slot.parityPresent[0]
    ensures Usable(c, slot)
  {
    CountAbove(slot.parityPresent, slot.parityShardCount, 0);
  }

  lemma {:induction false} EmptySlotsUnusable(c: PendingFrame, slots: seq<FecSlot>, u: nat)
    requires ValidPending(c) && u <= |slots| && forall j :: 0 <= j < u ==> slots[j] == EMPTY_SLOT
    ensures forall j :: 0 <= j < u ==> ValidSlot(slots[j]) && !Usable(c, slots[j])
  {}

  lemma {:induction false} NextGroup(s: Stream, st: SenderState, f: Frame, ratio: real)
    ensures AfterFrame(s, st, f, ratio).fecGroupId == (st.fecGroupId + 1) % 0x100
  {
    hide Emitted, Numbered;
  }

  // A frame that loses one packet meets such a shard in the first slot that is not empty.
  lemma {:induction false} ForeignSlotCorrupts(r: State, before: seq<Arrival>, s: Stream, st: SenderState, f: Frame,
                                               l: nat, ratio: real, arrivals: seq<Arrival>, next: Arrival,
                                               a: seq<Vector>, u: nat)
    requires s.crypto.None? && Fits(f) && PacketCount(|f.data|) >= 2 && DifferAt(a, Chunks(f.data), l, MAX_PAYLOAD)
    requires Valid(r) && Run(None, r, before).0.current == BLANK
    requires LosesOnly(s, st, f, ratio, arrivals, l) && StartsAnother(next, f) && u < SLOTS
    requires var slots := SlotsAfter(Run(None, r, before).0.slots, arrivals);
      && ForeignShard(slots[u], a, MAX_PAYLOAD, 0) && slots[u].dataShardCount == |a|
      && forall j :: 0 <= j < u ==> slots[j] == EMPTY_SLOT
    ensures Corrupts(r, before, arrivals, next, f, l)
  {
    hide Run, Step, Flags, PacketCount, Fits, DeliveredWrongly, FromEmission, Chunk, Tracking, SlotsAfter, SomeKept,
      All;
    var k := PacketCount(|f.data|);
    var start := Run(None, r, before).0;
    FittingCount(f);
    CountAllBut(k, l);
    PartFromBlank(s, st, f, ratio, start, arrivals);
    var mid := Run(None, start, arrivals).0;
    TrackingCounts(ImageOf(f), AllBut(k, l), FirstAt(arrivals));
    ServingIsUsable(mid.current, mid.slots[u], k);
    EmptySlotsUnusable(mid.current, mid.slots, u);
    FirstUsableIs(mid.current, mid.slots, u, 0);
    ForeignDelivery(mid, f, l, a, FirstAt(arrivals), 0, next);
  }

  // Nothing pending and nothing in the slots, as at the start.
  predicate Idle(r: State) {
    Valid(r) && r.current == BLANK && forall j :: 0 <= j < SLOTS ==> r.slots[j] == EMPTY_SLOT
  }

  lemma {:induction false} InitialIsIdle()
    ensures Idle(INITIAL)
  {}

  // A frame arrives whole, and its parity stays in its slot. Its twin follows and loses the packet in which they
  // differ; all its own parity may arrive, which would be enough. The receiver takes the first frame's parity and
  // delivers wrong bytes for the second.
  lemma {:induction false} StaleParityCorrupts(r: State, s: Stream, st: SenderState, a: Frame, ratio: real,
                                               first: seq<Arrival>, b: Frame, l: nat, ratio': real,
                                               second: seq<Arrival>, next: Arrival)
    requires Idle(r) && s.crypto.None? && Twins(a, b, l) && st.fecGroupId % 16 < 15
    requires ArrivesWhole(s, st, a, ratio, first)
    requires LosesOnly(s, AfterFrame(s, st, a, ratio), b, ratio', second, l) && StartsAnother(next, b)
    ensures Corrupts(r, first, second, next, b, l)
  {
    hide Run, Corrupts, Emitted, AfterFrame, Flags, PacketCount, Fits, OwnSlot, StoredOver, FromEmission, Chunks,
      DifferAt, ParityFlags, SlotsAfter, Sealed, ShardSize;
    var u, m := st.fecGroupId % SLOTS, ParitySent(s, st, a, ratio);
    NextGroup(s, st, a, ratio);
    WholeFrameLeavesParity(s, st, a, ratio, r, first);
    var after := Run(None, r, first).0;
    OwnParityOnly(s, AfterFrame(s, st, a, ratio), b, ratio', after.slots, second);
    CodecFits(s, st, a, ratio);
    OwnIsForeign(after.slots[u], Chunks(a.data), m);
    ForeignSlotCorrupts(r, first, s, AfterFrame(s, st, a, ratio), b, l, ratio', second, next, Chunks(a.data), u);
  }

  // ----- flags left over in the own slot

  // Every frame arrives whole and is too small for parity.
  ghost predicate Quiet(s: Stream, st: SenderState, jobs: seq<Job>, parts: seq<seq<Arrival>>) {
    |parts| == |jobs| &&
    forall j :: 0 <= j < |jobs| ==>
      Fits(jobs[j].frame) && |SentFor(s, st, jobs, j)| == PacketCount(|jobs[j].frame.data|)
      && Carry(parts[j], SentFor(s, st, jobs, j))
  }

  // The first is missing, and some other is not.
  predicate OnlyFirstLost(p: seq<bool>) { |p| > 0 && !p[0] && SomeKept(p) }

  // Such frames leave the slots alone.
  lemma {:induction false} QuietRun(s: Stream, st: SenderState, jobs: seq<Job>, r: State, parts: seq<seq<Arrival>>,
                                    n: nat)
    requires CipherOk(s) && Valid(r) && r.current == BLANK && Quiet(s, st, jobs, parts) && n <= |parts|
    ensures Run(s.crypto, r, Flatten(parts, n)).0 == r
  {
    hide Run, Fits, Emitted, PacketCount, StateBefore, Lawful, Tidy, Concerns, Flags, All, FirstAt, HasData,
      SlotsAfter, Valid;
    if n == 0 {
      NoPackets(s.crypto, r);
    } else {
      QuietRun(s, st, jobs, r, parts, n - 1);
      var part, f := parts[n - 1], jobs[n - 1].frame;
      ValidSlots(r);
      RunConcat(s.crypto, r, Flatten(parts, n - 1), part);
      FullPart(s, StateBefore(s, st, jobs, n - 1), f, jobs[n - 1].ratio, part);
      OneFrame(s.crypto, r, ImageOf(f), part);
      OnlyData(s, StateBefore(s, st, jobs, n - 1), f, jobs[n - 1].ratio, part);
      SlotsWithoutParity(r.slots, part);
      CompleteIsBlank(s.crypto, ImageOf(f), part);
    }
  }

  lemma {:induction false} OnlyData(s: Stream, st: SenderState, f: Frame, ratio: real, part: seq<Arrival>)
    requires CipherOk(s) && Fits(f) && |Emitted(s, st, f, ratio)| == PacketCount(|f.data|)
    requires Carry(part, Emitted(s, st, f, ratio))
    ensures forall i :: 0 <= i < |part| ==> !IsParity(part[i])
  {
    hide Emitted, PacketCount, Fits, IsOf, Lawful, IsParity;
    forall i | 0 <= i < |part| ensures !IsParity(part[i]) {
      DataFirst(s, st, f, ratio, i);
      SentIsOf(s, st, f, i, part[i]);
      DataIsNotParity(s.crypto, part[i], ImageOf(f));
    }
  }

  lemma {:induction false} CompleteIsBlank(crypto: Option<Cipher>, g: Image, part: seq<Arrival>)
    requires All(Flags(|g.chunks|, part))
    ensures Holding(g, Flags(|g.chunks|, part), FirstAt(part)) == BLANK
  {}

  // A slot that kept the other frame's first parity shard, because the own one did not arrive.
  lemma {:induction false} LeftoverIsForeign(slot: FecSlot, was: FecSlot, a: seq<Vector>, b: seq<Vector>, m: nat,
                                             p: seq<bool>)
    requires OwnSlot(was, a, m, MAX_PAYLOAD, AllSet(m)) && m > 0 && |a| == |b| && |a| + m <= 256
    requires |p| == m && StoredOver(slot, was, b, m, MAX_PAYLOAD, p) && !p[0]
    ensures ForeignShard(slot, a, MAX_PAYLOAD, 0) && slot.dataShardCount == |a|
  {
    hide CodeShard;
    assert Flagged(was, 0);
  }

  lemma {:induction false} SameSlotAgain(group: u8)
    ensures ((group + 1) % 0x100 + 15) % 0x100 % SLOTS == group % SLOTS
  {}

  // Sixteen groups later the slot still holds the parity of the frame that used it.
  lemma {:induction false} ParityStays(r: State, s: Stream, st: SenderState, a: Frame, ratio: real,
                                       first: seq<Arrival>, jobs: seq<Job>, parts: seq<seq<Arrival>>)
    requires Idle(r) && s.crypto.None? && Fits(a) && PacketCount(|a.data|) >= 2 && |jobs| == 15
    requires ArrivesWhole(s, st, a, ratio, first) && Quiet(s, AfterFrame(s, st, a, ratio), jobs, parts)
    ensures var m, u := ParitySent(s, st, a, ratio), st.fecGroupId % SLOTS;
      var after := Run(None, r, first + Flatten(parts, |parts|)).0;
      && StateBefore(s, AfterFrame(s, st, a, ratio), jobs, |jobs|).fecGroupId % SLOTS == u
      && Valid(after) && after.current == BLANK
      && OwnSlot(after.slots[u], Chunks(a.data), m, MAX_PAYLOAD, AllSet(m))
      && forall j :: 0 <= j < SLOTS && j != u ==> after.slots[j] == EMPTY_SLOT
  {
    hide Run, Emitted, AfterFrame, StateBefore, PacketCount, Fits, OwnSlot, Flatten, Chunks, Quiet;
    var st' := AfterFrame(s, st, a, ratio);
    NextGroup(s, st, a, ratio);
    StreamNumbers(s, st', jobs, |jobs|);
    SameSlotAgain(st.fecGroupId);
    WholeFrameLeavesParity(s, st, a, ratio, r, first);
    RunConcat(None, r, first, Flatten(parts, |parts|));
    QuietRun(s, st', jobs, Run(None, r, first).0, parts, |parts|);
  }

  // A frame arrives whole, and fifteen frames too small for parity follow. Its twin then uses the same slot.
  // It loses the packet in which they differ and its first parity packet, and another of its own parity packets
  // arrives, which would be enough. The receiver counts the flag left over from the first frame, takes that
  // frame's shard for the lost one and delivers wrong bytes.
  lemma {:induction false} LeftoverFlagCorrupts(r: State, s: Stream, st: SenderState, a: Frame, ratio: real,
                                                first: seq<Arrival>, jobs: seq<Job>, parts: seq<seq<Arrival>>,
                                                b: Frame, l: nat, ratio': real, second: seq<Arrival>, next: Arrival)
    requires Idle(r) && s.crypto.None? && Twins(a, b, l) && |jobs| == |parts| == 15
    requires ArrivesWhole(s, st, a, ratio, first) && Quiet(s, AfterFrame(s, st, a, ratio), jobs, parts)
    requires var late := StateBefore(s, AfterFrame(s, st, a, ratio), jobs, |jobs|);
      && LosesOnly(s, late, b, ratio', second, l) && ParitySent(s, late, b, ratio') == ParitySent(s, st, a, ratio)
      && OnlyFirstLost(ParityFlags(ParitySent(s, late, b, ratio'), second))
    requires StartsAnother(next, b)
    ensures Corrupts(r, first + Flatten(parts, |parts|), second, next, b, l)
  {
    hide Run, Corrupts, Emitted, AfterFrame, StateBefore, Flags, PacketCount, Fits, OwnSlot, StoredOver, Flatten,
      FromEmission, Chunks, DifferAt, ParityFlags, SlotsAfter, Quiet, Valid, Sealed, ShardSize;
    var u, m := st.fecGroupId % SLOTS, ParitySent(s, st, a, ratio);
    var late, before := StateBefore(s, AfterFrame(s, st, a, ratio), jobs, |jobs|), first + Flatten(parts, |parts|);
    ParityStays(r, s, st, a, ratio, first, jobs, parts);
    var after := Run(None, r, before).0;
    ValidSlots(after);
    OwnParityOnly(s, late, b, ratio', after.slots, second);
    PlainShards(s, late, b);
    CodecFits(s, st, a, ratio);
    LeftoverIsForeign(SlotsAfter(after.slots, second)[u], after.slots[u], Chunks(a.data), Chunks(b.data), m,
                      ParityFlags(m, second));
    ForeignSlotCorrupts(r, before, s, late, b, l, ratio', second, next, Chunks(a.data), u);
  }
}
