// Losses in a row: each frame is repaired when the next one starts, and frees its slot for that.
module RecoveryBursts {
  import opened Wrappers
  import opened LinearAlgebra
  import opened ErasureCode
  import opened VideoPackets
  import opened VideoSending
  import opened VideoReceiving
  import opened FrameTracking
  import opened FrameRuns
  import opened VideoPipeline
  import opened FrameLimits
  import opened Recovery
  import opened RecoveryDelivery

  // Some of the frame's packets arrive, a data packet first, and no more data packets are missing than parity
  // packets arrive.
  ghost predicate Repairable(s: Stream, st: SenderState, f: Frame, ratio: real, part: seq<Arrival>) {
    var k, m := PacketCount(|f.data|), |Emitted(s, st, f, ratio)| - PacketCount(|f.data|);
    && s.crypto.None? && Fits(f) && part != [] && !IsParity(part[0])
    && (forall i :: 0 <= i < |part| ==> FromEmission(s, st, f, ratio, part[i]))
    && SomeKept(Flags(k, part)) && !All(Flags(k, part))
    && k - Count(Flags(k, part), k) <= Count(ParityFlags(m, part), m)
  }

  // The parity flags of part j.
  ghost function OwnFlags(s: Stream, st: SenderState, jobs: seq<Job>, parts: seq<seq<Arrival>>, j: nat): seq<bool>
    requires j < |jobs| == |parts|
  {
    ParityFlags(|SentFor(s, st, jobs, j)| - PacketCount(|jobs[j].frame.data|), parts[j])
  }

  // Every frame loses packets and could be repaired. Neighbours differ in their 16-bit numbers, and from the 17th
  // frame on, when slots are used again, all parity of a frame arrives.
  ghost predicate Burst(s: Stream, st: SenderState, jobs: seq<Job>, parts: seq<seq<Arrival>>) {
    && |jobs| == |parts|
    && (forall j :: 0 <= j < |jobs| ==>
          Repairable(s, StateBefore(s, st, jobs, j), jobs[j].frame, jobs[j].ratio, parts[j]))
    && (forall j :: 0 < j < |jobs| ==> jobs[j - 1].frame.number % 0x1_0000 != jobs[j].frame.number % 0x1_0000)
    && (forall j :: 16 <= j < |jobs| ==> All(OwnFlags(s, st, jobs, parts, j)))
  }

  function SlotOf(st: SenderState, j: nat): nat { (st.fecGroupId + j) % 0x100 % SLOTS }

  lemma {:induction false} SlotsDiffer(st: SenderState, i: nat, j: nat)
    requires i < j < i + SLOTS
    ensures SlotOf(st, i) != SlotOf(st, j) && SlotOf(st, i) < SLOTS
  {}

  // No live parity but in slot u, sizes within a payload's, and nothing yet in the slots of the frames to come.
  predicate Tidied(st: SenderState, slots: seq<FecSlot>, n: nat, u: int) {
    && |slots| == SLOTS
    && (forall i :: 0 <= i < SLOTS ==> slots[i].shardSize <= MAX_PAYLOAD && (i != u ==> !slots[i].isRs))
    && forall j :: n <= j < SLOTS ==> slots[SlotOf(st, j)] == EMPTY_SLOT
  }

  // What is pending after n frames of the burst: the last of them, with its own parity in its slot.
  ghost predicate Hangs(s: Stream, st: SenderState, jobs: seq<Job>, parts: seq<seq<Arrival>>, n: nat, r: State)
    requires Burst(s, st, jobs, parts) && n <= |jobs|
  {
    && Valid(r)
    && if n == 0 then r.current == BLANK && Tidied(st, r.slots, 0, -1)
       else
         var f, u, p := jobs[n - 1].frame, SlotOf(st, n - 1), OwnFlags(s, st, jobs, parts, n - 1);
         var flags := Flags(PacketCount(|f.data|), parts[n - 1]);
         && |flags| == |ImageOf(f).chunks| && u < SLOTS
         && r.current == Tracking(ImageOf(f), flags, FirstAt(parts[n - 1])) && Tidied(st, r.slots, n, u)
         && OwnSlot(r.slots[u], Chunks(f.data), |p|, MAX_PAYLOAD, p)
  }

  // The first n frames, rebuilt.
  ghost function AllRebuilt(jobs: seq<Job>, parts: seq<seq<Arrival>>, n: nat): seq<Delivery>
    requires n <= |jobs| == |parts| && forall j :: 0 <= j < n ==> Fits(jobs[j].frame)
  {
    if n == 0 then []
    else
      var f, part := jobs[n - 1].frame, parts[n - 1];
      AllRebuilt(jobs, parts, n - 1) + [RebuiltDelivery(f, Flags(PacketCount(|f.data|), part), FirstAt(part))]
  }

  lemma {:induction false} EnoughOfEach(s: Stream, st: SenderState, f: Frame, ratio: real, part: seq<Arrival>)
    requires Repairable(s, st, f, ratio, part)
    ensures var k, m := PacketCount(|f.data|), |Emitted(s, st, f, ratio)| - PacketCount(|f.data|);
      var flags, p := Flags(k, part), ParityFlags(m, part);
      && Fits(f) && k >= 2 && 0 < Count(flags, k) < k && SomeKept(p) && !All(flags)
      && k + m <= 255 && Count(flags, k) + Count(p, m) >= k
      && |flags| == k == |ImageOf(f).chunks| && |p| == m
  {
    hide Emitted, PacketCount, Fits, Flags, ParityFlags, FromEmission, Count, SomeKept, All, IsParity;
    var k, m := PacketCount(|f.data|), |Emitted(s, st, f, ratio)| - PacketCount(|f.data|);
    FittingCount(f);
    SomeMissing(Flags(k, part));
    SomeArrived(ParityFlags(m, part));
    CodecFits(s, st, f, ratio);
  }

  // Using the last live slot up leaves none.
  lemma {:induction false} TidyAfterUse(st: SenderState, slots: seq<FecSlot>, n: nat)
    requires 0 < n && SlotOf(st, n - 1) < SLOTS && Tidied(st, slots, n, SlotOf(st, n - 1))
    ensures var u := SlotOf(st, n - 1); Tidied(st, slots[u := MarkUsed(slots[u])], n, -1)
  {
    forall j | n <= j < SLOTS ensures SlotOf(st, j) != SlotOf(st, n - 1) { SlotsDiffer(st, n - 1, j); }
  }

  lemma {:induction false} NoneServes(st: SenderState, r: State, n: nat, u: nat)
    requires Valid(r) && Tidied(st, r.slots, n, u)
    ensures forall i, k, have :: 0 <= i < SLOTS && i != u ==> !Serves(r.slots[i], k, have)
  {}

  lemma {:induction false} FlushRepairable(s: Stream, sender: SenderState, f: Frame, ratio: real, part: seq<Arrival>,
                                           r: State, u: nat, p: seq<bool>)
    requires Repairable(s, sender, f, ratio, part) && Valid(r) && u < SLOTS
    requires p == ParityFlags(|Emitted(s, sender, f, ratio)| - PacketCount(|f.data|), part)
    requires |Flags(PacketCount(|f.data|), part)| == |ImageOf(f).chunks|
    requires r.current == Tracking(ImageOf(f), Flags(PacketCount(|f.data|), part), FirstAt(part))
    requires OwnSlot(r.slots[u], Chunks(f.data), |p|, MAX_PAYLOAD, p)
    requires forall i, k, have :: 0 <= i < SLOTS && i != u ==> !Serves(r.slots[i], k, have)
    ensures Fits(f) && r.current.frameNumber == f.number % 0x1_0000
    ensures Flush(r) == (r.slots[u := MarkUsed(r.slots[u])],
                         [RebuiltDelivery(f, Flags(PacketCount(|f.data|), part), FirstAt(part))])
  {
    hide PacketCount, Fits, Flags, ParityFlags, Count, SomeKept, Emitted, FromEmission, OwnSlot, Chunks, Tracking,
      RebuiltDelivery, Flush, FirstAt, IsParity, Serves, Repairable, All, Valid, ImageOf;
    var flags := Flags(PacketCount(|f.data|), part);
    EnoughOfEach(s, sender, f, ratio, part);
    TrackingCounts(ImageOf(f), flags, FirstAt(part));
    FlushOwn(r, f, flags, FirstAt(part), |p|, p, u);
  }

  // Flushing the frame that hangs gives it back and leaves no live parity.
  lemma {:induction false} FlushHanging(s: Stream, st: SenderState, jobs: seq<Job>, parts: seq<seq<Arrival>>, n: nat,
                                        r: State)
    requires Burst(s, st, jobs, parts) && 0 < n <= |jobs| && Hangs(s, st, jobs, parts, n, r)
    ensures Fits(jobs[n - 1].frame)
    ensures var f, part := jobs[n - 1].frame, parts[n - 1];
      var d := RebuiltDelivery(f, Flags(PacketCount(|f.data|), part), FirstAt(part));
      && Flush(r).1 == [d] && Tidied(st, Flush(r).0, n, -1)
      && r.current.frameNumber == f.number % 0x1_0000
      && forall i :: 0 <= i < SLOTS && i != SlotOf(st, n - 1) ==> Flush(r).0[i] == r.slots[i]
  {
    hide PacketCount, Fits, Flags, ParityFlags, Emitted, StateBefore, OwnSlot, Chunks, Tracking, RebuiltDelivery,
      Flush, FirstAt, Serves, Tidied, SlotOf, ImageOf, Repairable, Valid;
    var job, u := jobs[n - 1], SlotOf(st, n - 1);
    ValidSlots(r);
    NoneServes(st, r, n, u);
    FlushRepairable(s, StateBefore(s, st, jobs, n - 1), job.frame, job.ratio, parts[n - 1], r, u,
                    OwnFlags(s, st, jobs, parts, n - 1));
    TidyAfterUse(st, r.slots, n);
  }

  lemma {:induction false} DataInFront(r: State, part: seq<Arrival>, m: nat, u: nat)
    requires Valid(r) && part != [] && !IsParity(part[0]) && SomeKept(ParityFlags(m, part)) && u < SLOTS
    ensures Led(r, part) == r && Relit(r, part, m, u)
  {
    hide Flush, ParityFlags, SomeKept, IsParity;
    assert part[..0] == [] && part[0..] == part;
  }

  lemma {:induction false} GroupOf(s: Stream, st: SenderState, jobs: seq<Job>, n: nat)
    requires n <= |jobs|
    ensures StateBefore(s, st, jobs, n).fecGroupId % SLOTS == SlotOf(st, n)
  {
    hide StateBefore, SentSoFar, NumberedFrom;
    StreamNumbers(s, st, jobs, n);
  }

  lemma {:induction false} EmptyIsCovered(m: nat, p: seq<bool>)
    requires |p| == m
    ensures Covered(EMPTY_SLOT, m, MAX_PAYLOAD, p)
  {}

  // The slots stay tidy when a frame's own parity comes on top of what the flush left.
  lemma {:induction false} StaysTidy(st: SenderState, met: seq<FecSlot>, slots: seq<FecSlot>, n: nat,
                                     chunks: seq<Vector>, p: seq<bool>)
    requires Tidied(st, met, n, -1) && |slots| == SLOTS
    requires OwnSlot(slots[SlotOf(st, n)], chunks, |p|, MAX_PAYLOAD, p)
    requires forall j :: 0 <= j < SLOTS && j != SlotOf(st, n) ==> slots[j] == met[j]
    ensures Tidied(st, slots, n + 1, SlotOf(st, n))
  {
    hide Parity;
    forall j | n + 1 <= j < SLOTS ensures slots[SlotOf(st, j)] == EMPTY_SLOT { SlotsDiffer(st, n, j); }
  }

  // Before a frame of the burst, nothing or the frame before it is pending; its first packet flushes that.
  ghost predicate Cleared(s: Stream, st: SenderState, jobs: seq<Job>, parts: seq<seq<Arrival>>, n: nat, r: State)
    requires Burst(s, st, jobs, parts) && n < |jobs|
  {
    && Valid(r) && Free(r, jobs[n].frame) && Tidied(st, Flush(r).0, n, -1)
    && r.slots[SlotOf(st, n)].shardSize <= MAX_PAYLOAD
    && (n < SLOTS ==> r.slots[SlotOf(st, n)] == EMPTY_SLOT)
  }

  lemma {:induction false} HangingIsCleared(s: Stream, st: SenderState, jobs: seq<Job>, parts: seq<seq<Arrival>>,
                                            n: nat, r: State)
    requires Burst(s, st, jobs, parts) && n < |jobs| && Hangs(s, st, jobs, parts, n, r)
    ensures Cleared(s, st, jobs, parts, n, r)
    ensures n == 0 ==> Flush(r).1 == []
  {
    hide Flush, Repairable, OwnFlags, OwnSlot, Tracking, Chunks, Flags, FirstAt, PacketCount, Emitted, Valid;
    if n == 0 { NothingToFlush(r); } else { FlushHanging(s, st, jobs, parts, n, r); }
  }

  // One more frame: what hung is given back, and the new frame hangs.
  lemma {:induction false} BurstStep(s: Stream, st: SenderState, jobs: seq<Job>, parts: seq<seq<Arrival>>, n: nat,
                                     r: State)
    requires Burst(s, st, jobs, parts) && n < |jobs| && Cleared(s, st, jobs, parts, n, r)
    ensures Run(None, r, parts[n]).1 == Flush(r).1
    ensures Hangs(s, st, jobs, parts, n + 1, Run(None, r, parts[n]).0)
  {
    hide Flush, ParityFlags, SomeKept, IsParity, Flags, PacketCount, Emitted, StateBefore, Fits, FromEmission, Count,
      All, Tracking, PartSlots, OwnSlot, Chunks, FirstAt, Run, Tidied, Relit, Covered, ImageOf, Free, SlotOf;
    var job, part, sender := jobs[n], parts[n], StateBefore(s, st, jobs, n);
    var f, p, u := job.frame, OwnFlags(s, st, jobs, parts, n), SlotOf(st, n);
    EnoughOfEach(s, sender, f, job.ratio, part);
    GroupOf(s, st, jobs, n);
    DataInFront(r, part, |p|, u);
    PartOfFrame(s, sender, f, job.ratio, r, part);
    if n < SLOTS { EmptyIsCovered(|p|, p); } else { AllCovers(r.slots[u], p); }
    PlainOwnSlot(s, sender, f, job.ratio, r, part, p);
    StaysTidy(st, Flush(r).0, PartSlots(r, part), n, Chunks(f.data), p);
  }

  lemma {:induction false} AllCovers(slot: FecSlot, p: seq<bool>)
    requires All(p) && slot.shardSize <= MAX_PAYLOAD
    ensures Covered(slot, |p|, MAX_PAYLOAD, p)
  {}

  lemma {:induction false} BurstRun(s: Stream, st: SenderState, jobs: seq<Job>, r: State, parts: seq<seq<Arrival>>,
                                    n: nat)
    requires Burst(s, st, jobs, parts) && n <= |jobs| && Hangs(s, st, jobs, parts, 0, r)
    ensures forall j :: 0 <= j < |jobs| ==> Fits(jobs[j].frame)
    ensures Hangs(s, st, jobs, parts, n, Run(None, r, Flatten(parts, n)).0)
    ensures Run(None, r, Flatten(parts, n)).1 == AllRebuilt(jobs, parts, if n == 0 then 0 else n - 1)
  {
    hide Flush, Run, Hangs, Cleared, Flags, PacketCount, Emitted, StateBefore, Fits, FromEmission, Count, All,
      FirstAt, RebuiltDelivery, OwnFlags, SomeKept, ParityFlags, IsParity;
    if n == 0 {
      HangsIsValid(s, st, jobs, parts, 0, r);
      NoPackets(None, r);
    } else {
      BurstRun(s, st, jobs, r, parts, n - 1);
      HangsIsValid(s, st, jobs, parts, 0, r);
      var mid := Run(None, r, Flatten(parts, n - 1)).0;
      HangingIsCleared(s, st, jobs, parts, n - 1, mid);
      BurstStep(s, st, jobs, parts, n - 1, mid);
      RunConcat(None, r, Flatten(parts, n - 1), parts[n - 1]);
      if n > 1 { FlushHanging(s, st, jobs, parts, n - 1, mid); }
    }
  }

  lemma {:induction false} HangsIsValid(s: Stream, st: SenderState, jobs: seq<Job>, parts: seq<seq<Arrival>>, n: nat,
                                        r: State)
    requires Burst(s, st, jobs, parts) && n <= |jobs| && Hangs(s, st, jobs, parts, n, r)
    ensures Valid(r)
  {}

  // However many frames in a row lose packets, each is given back when the next one starts, in the order sent:
  // its bytes, followed by zeros only when its last packet was rebuilt. The last comes with the packet after it.
  lemma {:induction false} BurstComesBack(s: Stream, st: SenderState, jobs: seq<Job>, r: State,
                                          parts: seq<seq<Arrival>>, next: Arrival)
    requires Burst(s, st, jobs, parts) && jobs != []
    requires Valid(r) && r.current == BLANK && Tidied(st, r.slots, 0, -1)
    requires !IsParity(next) && next.packet.hdr.frameNumber != jobs[|jobs| - 1].frame.number % 0x1_0000
    ensures forall j :: 0 <= j < |jobs| ==> Fits(jobs[j].frame)
    ensures var n, mid := |jobs|, Run(None, r, Flatten(parts, |parts|));
      && mid.1 == AllRebuilt(jobs, parts, n - 1)
      && var d := Step(None, mid.0, next).1;
         d != [] && mid.1 + [d[0]] == AllRebuilt(jobs, parts, n)
  {
    hide Flush, Run, Step, Flags, PacketCount, Emitted, StateBefore, Fits, FromEmission, Count, All, FirstAt,
      RebuiltDelivery, OwnFlags, SomeKept, ParityFlags, IsParity, Tidied, Repairable, Hangs, Valid;
    var n := |jobs|;
    assert Hangs(s, st, jobs, parts, 0, r) by { HangsAtStart(s, st, jobs, parts, r); }
    BurstRun(s, st, jobs, r, parts, n);
    var mid := Run(None, r, Flatten(parts, n)).0;
    HangsIsValid(s, st, jobs, parts, n, mid);
    FlushHanging(s, st, jobs, parts, n, mid);
    FlushedByNext(mid, next);
  }

  lemma {:induction false} HangsAtStart(s: Stream, st: SenderState, jobs: seq<Job>, parts: seq<seq<Arrival>>, r: State)
    requires Burst(s, st, jobs, parts) && Valid(r) && r.current == BLANK && Tidied(st, r.slots, 0, -1)
    ensures Hangs(s, st, jobs, parts, 0, r)
  {}

  lemma {:induction false} FlushedByNext(st: State, next: Arrival)
    requires Valid(st) && !IsParity(next) && next.packet.hdr.frameNumber != st.current.frameNumber && Flush(st).1 != []
    ensures Step(None, st, next).1 != [] && Step(None, st, next).1[0] == Flush(st).1[0]
  {
    hide Recover, Store, Assembled, Opened;
  }
}
