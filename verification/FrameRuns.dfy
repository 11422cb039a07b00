// Runs over many frames, and the end-to-end theorems of the video path.
module FrameRuns {
  import opened Wrappers
  import opened ErasureCode
  import opened VideoPackets
  import opened VideoReceiving
  import opened FrameTracking

  lemma {:induction false} RunConcat(crypto: Option<Cipher>, st: State, a: seq<Arrival>, b: seq<Arrival>)
    requires Valid(st)
    ensures Run(crypto, st, a + b) ==
      (Run(crypto, Run(crypto, st, a).0, b).0, Run(crypto, st, a).1 + Run(crypto, Run(crypto, st, a).0, b).1)
    decreases |b|
  {
    hide Step, Valid;
    if b == [] {
      assert a + b == a;
      assert Run(crypto, st, a).1 + [] == Run(crypto, st, a).1;
    } else {
      var c, z := b[..|b| - 1], b[|b| - 1];
      assert (a + b)[..|a + b| - 1] == a + c && (a + b)[|a + b| - 1] == z;
      RunConcat(crypto, st, a, c);
      var mid := Run(crypto, st, a).0;
      var last := Step(crypto, Run(crypto, mid, c).0, z).1;
      var x, y := Run(crypto, st, a).1, Run(crypto, mid, c).1;
      assert (x + y) + last == x + (y + last);
    }
  }

  // Runs whose first packet has the same effect, apart from further deliveries, go on the same.
  lemma {:induction false} RunAfterFirstStep(crypto: Option<Cipher>, st: State, other: State, a: seq<Arrival>,
                                             d: seq<Delivery>)
    requires Valid(st) && Valid(other) && a != []
    requires Step(crypto, st, a[0]) == (Step(crypto, other, a[0]).0, d + Step(crypto, other, a[0]).1)
    ensures Run(crypto, st, a) == (Run(crypto, other, a).0, d + Run(crypto, other, a).1)
  {
    hide Step, Valid;
    var b := a[..|a| - 1];
    if b == [] {
      assert [] + Step(crypto, st, a[0]).1 == Step(crypto, st, a[0]).1;
      assert [] + Step(crypto, other, a[0]).1 == Step(crypto, other, a[0]).1;
    } else {
      RunAfterFirstStep(crypto, st, other, b, d);
      var last := Step(crypto, Run(crypto, other, b).0, a[|a| - 1]).1;
      assert (d + Run(crypto, other, b).1) + last == d + (Run(crypto, other, b).1 + last);
    }
  }

  predicate NoLiveSlot(slots: seq<FecSlot>) { forall j :: 0 <= j < |slots| ==> !slots[j].isRs }

  // ----- several frames

  function Flatten<T>(parts: seq<seq<T>>, n: nat): seq<T>
    requires n <= |parts|
  {
    if n == 0 then [] else Flatten(parts, n - 1) + parts[n - 1]
  }

  // Part j of the run concerns frame j.
  ghost predicate Parts(crypto: Option<Cipher>, images: seq<Image>, parts: seq<seq<Arrival>>) {
    && |images| == |parts|
    && forall j :: 0 <= j < |parts| ==>
      images[j].chunks != [] && Concerns(crypto, parts[j], images[j]) && Tidy(|images[j].chunks|, parts[j])
  }

  function PartFlags(images: seq<Image>, parts: seq<seq<Arrival>>, j: nat): (f: seq<bool>)
    requires j < |parts| == |images|
    ensures |f| == |images[j].chunks|
  {
    Flags(|images[j].chunks|, parts[j])
  }

  // The pending frame after the first n parts.
  function PendingAfter(images: seq<Image>, parts: seq<seq<Arrival>>, n: nat): PendingFrame
    requires n <= |parts| == |images|
  {
    if n == 0 then BLANK
    else if HasData(parts[n - 1]) then
      Holding(images[n - 1], PartFlags(images, parts, n - 1), FirstAt(parts[n - 1]))
    else PendingAfter(images, parts, n - 1)
  }

  // Frame i is pending after the first n parts.
  predicate PendingFrom(images: seq<Image>, parts: seq<seq<Arrival>>, n: nat, i: nat)
    requires i < n <= |parts| == |images|
  {
    && !All(PartFlags(images, parts, i))
    && PendingAfter(images, parts, n) == Holding(images[i], PartFlags(images, parts, i), FirstAt(parts[i]))
  }

  // The complete ones among the first n frames, in order.
  function WholeFrames(images: seq<Image>, parts: seq<seq<Arrival>>, n: nat): seq<Delivery>
    requires n <= |parts| == |images|
  {
    if n == 0 then []
    else
      WholeFrames(images, parts, n - 1) + WholeFrame(images, parts, n - 1)
  }

  // No frame starts on a partly received frame with the same 16-bit number.
  ghost predicate Separated(images: seq<Image>, parts: seq<seq<Arrival>>)
    requires |parts| == |images|
  {
    forall n :: 0 <= n < |parts| && HasData(parts[n]) ==>
      PendingAfter(images, parts, n) == BLANK || PendingAfter(images, parts, n).frameNumber != images[n].number
  }

  ghost predicate AllComplete(images: seq<Image>, parts: seq<seq<Arrival>>)
    requires |parts| == |images|
  {
    forall j :: 0 <= j < |parts| ==> All(PartFlags(images, parts, j))
  }

  predicate ParityFree(parts: seq<seq<Arrival>>) {
    forall j, i :: 0 <= j < |parts| && 0 <= i < |parts[j]| ==> !IsParity(parts[j][i])
  }

  lemma {:induction false} NothingPending(images: seq<Image>, parts: seq<seq<Arrival>>, n: nat)
    requires n <= |parts| == |images| && AllComplete(images, parts)
    ensures PendingAfter(images, parts, n) == BLANK
  {
    if n > 0 {
      NothingPending(images, parts, n - 1);
      assert All(PartFlags(images, parts, n - 1));
    }
  }

  lemma {:induction false} SlotsWithoutParity(slots: seq<FecSlot>, arrivals: seq<Arrival>)
    requires |slots| == SLOTS && forall j :: 0 <= j < SLOTS ==> ValidSlot(slots[j])
    requires forall i :: 0 <= i < |arrivals| ==> !IsParity(arrivals[i])
    ensures SlotsAfter(slots, arrivals) == slots
    ensures arrivals != [] ==> HasData(arrivals)
  {
    if arrivals != [] { SlotsWithoutParity(slots, arrivals[..|arrivals| - 1]); }
  }

  // ----- one frame after whatever is still pending

  // How many parity packets come before the first data packet.
  function Lead(part: seq<Arrival>): (h: nat)
    ensures h <= |part| && (forall i :: 0 <= i < h ==> IsParity(part[i])) && (h < |part| ==> !IsParity(part[h]))
  {
    if part == [] || !IsParity(part[0]) then 0 else 1 + Lead(part[1..])
  }

  // The receiver when the part's first data packet arrives.
  function Led(st: State, part: seq<Arrival>): (r: State)
    requires Valid(st)
    ensures Valid(r)
  {
    State(st.current, SlotsAfter(st.slots, part[..Lead(part)]))
  }

  // The slots after a part with data: the first data packet flushes what was pending.
  ghost function PartSlots(st: State, part: seq<Arrival>): (t: seq<FecSlot>)
    requires Valid(st)
    ensures |t| == SLOTS && forall j :: 0 <= j < SLOTS ==> ValidSlot(t[j])
  {
    SlotsAfter(Flush(Led(st, part)).0, part[Lead(part)..])
  }

  lemma {:induction false} ParityRun(crypto: Option<Cipher>, st: State, lead: seq<Arrival>)
    requires Valid(st) && forall i :: 0 <= i < |lead| ==> IsParity(lead[i])
    ensures Run(crypto, st, lead) == (State(st.current, SlotsAfter(st.slots, lead)), [])
    ensures !HasData(lead)
  {
    hide Step, StoreFec, ValidPending, ValidSlot;
    if lead != [] {
      var before := lead[..|lead| - 1];
      ParityRun(crypto, st, before);
      ParityPacket(crypto, Run(crypto, st, before).0, lead[|lead| - 1]);
      assert Run(crypto, st, before).1 + [] == [];
    }
  }

  // Parity packets in front change nothing about the data packets behind them.
  lemma {:induction false} DropLead(n: nat, lead: seq<Arrival>, rest: seq<Arrival>)
    requires (forall i :: 0 <= i < |lead| ==> IsParity(lead[i])) && !HasData(lead)
    ensures Flags(n, lead + rest) == Flags(n, rest)
    ensures HasData(lead + rest) == HasData(rest) && FirstAt(lead + rest) == FirstAt(rest)
  {
    if rest == [] {
      assert lead + rest == lead;
      FlagsWithoutData(n, lead);
    } else {
      var b := rest[..|rest| - 1];
      assert (lead + rest)[..|lead + rest| - 1] == lead + b;
      DropLead(n, lead, b);
    }
  }

  lemma {:induction false} TidyRest(n: nat, lead: seq<Arrival>, rest: seq<Arrival>)
    requires (forall i :: 0 <= i < |lead| ==> IsParity(lead[i])) && !HasData(lead) && Tidy(n, lead + rest)
    ensures Tidy(n, rest)
  {
    hide Flags, All, HasData;
    forall j | 0 <= j < |rest| && !IsParity(rest[j]) ensures !All(Flags(n, rest[..j])) {
      DropLead(n, lead, rest[..j]);
      assert (lead + rest)[..|lead| + j] == lead + rest[..j] && (lead + rest)[|lead| + j] == rest[j];
    }
  }

  // The first data packet of another frame flushes what is pending and then meets a blank receiver.
  lemma {:induction false} FlushThenStep(crypto: Option<Cipher>, st: State, a: Arrival, g: Image)
    requires Valid(st) && IsOf(crypto, a, g) && (st.current == BLANK || st.current.frameNumber != g.number)
    ensures var (slots, flushed) := Flush(st);
      var blank := State(BLANK, slots);
      Valid(blank) && Step(crypto, st, a) == (Step(crypto, blank, a).0, flushed + Step(crypto, blank, a).1)
  {
    hide Decoded, Recover, Store, Assembled, Opened;
    var (slots, flushed) := Flush(st);
    var hdr := a.packet.hdr;
    var c := Store(Opened(hdr, a.at), hdr.packetIndex, Open(crypto, a.packet).value);
    assert [] + [Assembled(c)] == [Assembled(c)];
    assert flushed + [] == flushed;
  }

  // What the packets of one frame lead to, whatever was pending and whatever parity there is: what is pending
  // is flushed by the first data packet, and the frame is delivered when it is complete.
  lemma {:induction false} OneMoreFrame(crypto: Option<Cipher>, st: State, g: Image, part: seq<Arrival>)
    requires Valid(st) && g.chunks != [] && Concerns(crypto, part, g) && Tidy(|g.chunks|, part)
    requires HasData(part) ==> st.current == BLANK || st.current.frameNumber != g.number
    ensures var f := Flags(|g.chunks|, part);
      Run(crypto, st, part) ==
        if HasData(part) then
          (State(Holding(g, f, FirstAt(part)), PartSlots(st, part)),
           Flush(Led(st, part)).1 + if All(f) then [Whole(g, FirstAt(part))] else [])
        else (State(st.current, SlotsAfter(st.slots, part)), [])
  {
    hide Run, Step, Flush, ValidPending, ValidSlot, Whole, Holding, Tidy, IsOf, IsParity, Flags, HasData, FirstAt,
      SlotsAfter, All;
    var n, h := |g.chunks|, Lead(part);
    var lead, rest, led := part[..h], part[h..], Led(st, part);
    assert part == lead + rest;
    ParityRun(crypto, st, lead);
    RunConcat(crypto, st, lead, rest);
    DropLead(n, lead, rest);
    if rest == [] {
      assert part == lead;
      assert !HasData(part);
      assert [] + Run(crypto, led, rest).1 == Run(crypto, led, rest).1;
      NoPackets(crypto, led);
    } else {
      TidyRest(n, lead, rest);
      FirstIsData(crypto, rest, g);
      FlushThenStep(crypto, led, rest[0], g);
      var (slots, flushed) := Flush(led);
      var blank := State(BLANK, slots);
      RunAfterFirstStep(crypto, led, blank, rest, flushed);
      OneFrame(crypto, blank, g, rest);
      assert [] + (flushed + Run(crypto, blank, rest).1) == flushed + Run(crypto, blank, rest).1;
    }
  }

  lemma {:induction false} NoPackets(crypto: Option<Cipher>, st: State)
    requires Valid(st)
    ensures Run(crypto, st, []) == (st, [])
  {}

  lemma {:induction false} FirstIsData(crypto: Option<Cipher>, rest: seq<Arrival>, g: Image)
    requires rest != [] && !IsParity(rest[0]) && Concerns(crypto, rest, g)
    ensures IsOf(crypto, rest[0], g) && HasData(rest)
  {
    hide IsOf;
    if |rest| > 1 { FirstIsData(crypto, rest[..|rest| - 1], g); }
  }

  // ----- runs

  lemma {:induction false} HoldingIsValid(g: Image, f: seq<bool>, at: int, slots: seq<FecSlot>)
    requires |f| == |g.chunks| && |slots| == SLOTS && forall j :: 0 <= j < SLOTS ==> ValidSlot(slots[j])
    ensures Valid(State(Holding(g, f, at), slots))
  {
    CompleteIff(g, f, at);
    CountFull(f, |f|);
  }

  // The receiver after the first n parts.
  ghost function StateAfter(st: State, images: seq<Image>, parts: seq<seq<Arrival>>, n: nat): (r: State)
    requires Valid(st) && n <= |parts| == |images|
    ensures Valid(r)
  {
    if n == 0 then st
    else
      var before, part, g := StateAfter(st, images, parts, n - 1), parts[n - 1], images[n - 1];
      if HasData(part) then
        var f := PartFlags(images, parts, n - 1);
        HoldingIsValid(g, f, FirstAt(part), PartSlots(before, part));
        State(Holding(g, f, FirstAt(part)), PartSlots(before, part))
      else State(before.current, SlotsAfter(before.slots, part))
  }

  // What part n flushes: a frame received in part before it, rebuilt, or nothing.
  ghost function Flushed(st: State, images: seq<Image>, parts: seq<seq<Arrival>>, n: nat): seq<Delivery>
    requires Valid(st) && n < |parts| == |images|
  {
    if HasData(parts[n]) then Flush(Led(StateAfter(st, images, parts, n), parts[n])).1 else []
  }

  function WholeFrame(images: seq<Image>, parts: seq<seq<Arrival>>, n: nat): seq<Delivery>
    requires n < |parts| == |images|
  {
    if All(PartFlags(images, parts, n)) then [Whole(images[n], FirstAt(parts[n]))] else []
  }

  // For each part what it flushes, followed by its own frame when that is complete.
  ghost function Deliveries(st: State, images: seq<Image>, parts: seq<seq<Arrival>>, n: nat): seq<Delivery>
    requires Valid(st) && n <= |parts| == |images|
  {
    if n == 0 then []
    else Deliveries(st, images, parts, n - 1) + (Flushed(st, images, parts, n - 1) + WholeFrame(images, parts, n - 1))
  }

  lemma {:induction false} PendingIs(st: State, images: seq<Image>, parts: seq<seq<Arrival>>, n: nat)
    requires Valid(st) && st.current == BLANK && n <= |parts| == |images|
    ensures StateAfter(st, images, parts, n).current == PendingAfter(images, parts, n)
  {
    if n > 0 { PendingIs(st, images, parts, n - 1); }
  }

  lemma {:induction false} LossyPart(crypto: Option<Cipher>, st: State, images: seq<Image>, parts: seq<seq<Arrival>>,
                                     n: nat)
    requires Valid(st) && st.current == BLANK && n < |parts|
    requires Parts(crypto, images, parts) && Separated(images, parts)
    ensures Run(crypto, StateAfter(st, images, parts, n), parts[n]) ==
      (StateAfter(st, images, parts, n + 1), Flushed(st, images, parts, n) + WholeFrame(images, parts, n))
  {
    hide Run, Flush, Valid, Holding, Tidy, Whole, Concerns, FirstAt, HasData, SlotsAfter, All, PendingAfter, Led, Flags;
    PendingIs(st, images, parts, n);
    OneMoreFrame(crypto, StateAfter(st, images, parts, n), images[n], parts[n]);
    WithoutData(images, parts, n);
    assert [] + WholeFrame(images, parts, n) == WholeFrame(images, parts, n);
  }

  // Whatever is lost and whatever parity and slots there are: every complete frame is delivered whole, in
  // order and once, and between those the frames that recovery completes.
  lemma {:induction false} LossyRun(crypto: Option<Cipher>, st: State, images: seq<Image>, parts: seq<seq<Arrival>>,
                                    n: nat)
    requires Valid(st) && st.current == BLANK && n <= |parts|
    requires Parts(crypto, images, parts) && Separated(images, parts)
    ensures Run(crypto, st, Flatten(parts, n)) == (StateAfter(st, images, parts, n), Deliveries(st, images, parts, n))
  {
    hide Run, Valid, Flushed, WholeFrame, Separated, StateAfter;
    if n == 0 {
      NoPackets(crypto, st);
      Unmoved(st, images, parts);
    } else {
      LossyRun(crypto, st, images, parts, n - 1);
      LossyPart(crypto, st, images, parts, n - 1);
      RunConcat(crypto, st, Flatten(parts, n - 1), parts[n - 1]);
    }
  }

  lemma {:induction false} Unmoved(st: State, images: seq<Image>, parts: seq<seq<Arrival>>)
    requires Valid(st) && |parts| == |images|
    ensures StateAfter(st, images, parts, 0) == st
  {}

  lemma {:induction false} WithoutData(images: seq<Image>, parts: seq<seq<Arrival>>, n: nat)
    requires n < |parts| == |images| && images[n].chunks != []
    ensures !HasData(parts[n]) ==> WholeFrame(images, parts, n) == []
  {
    if !HasData(parts[n]) {
      FlagsWithoutData(|images[n].chunks|, parts[n]);
      NotAll(PartFlags(images, parts, n), 0);
    }
  }

  // What is flushed in between is at most the one frame that is pending, and only when part of it is missing.
  lemma {:induction false} FlushedIsPending(st: State)
    requires Valid(st)
    ensures |Flush(st).1| <= 1
    ensures Flush(st).1 != [] ==>
      0 < st.current.receivedCount < st.current.totalPackets && Flush(st).1[0].frameNumber == st.current.frameNumber
  {
    hide Decoded, FirstUsable, Concat;
  }

  lemma {:induction false} NothingToFlush(st: State)
    requires Valid(st) && (st.current == BLANK || NoLiveSlot(st.slots))
    ensures Flush(st) == (st.slots, [])
  {
    hide Decoded;
    if st.current != BLANK { RecoverNothing(st); }
  }

  // Without parity among its packets, a part changes no slot.
  lemma {:induction false} PartWithoutParity(st: State, part: seq<Arrival>)
    requires Valid(st) && forall i :: 0 <= i < |part| ==> !IsParity(part[i])
    ensures Led(st, part) == st
    ensures SlotsAfter(st.slots, part[Lead(part)..]) == st.slots == SlotsAfter(st.slots, part)
  {
    hide IsParity;
    SlotsWithoutParity(st.slots, part[..Lead(part)]);
    SlotsWithoutParity(st.slots, part[Lead(part)..]);
    SlotsWithoutParity(st.slots, part);
  }

  lemma {:induction false} NothingFlushed(st: State, images: seq<Image>, parts: seq<seq<Arrival>>, n: nat)
    requires Valid(st) && st.current == BLANK && n <= |parts| == |images|
    requires AllComplete(images, parts) || (ParityFree(parts) && NoLiveSlot(st.slots))
    ensures Deliveries(st, images, parts, n) == WholeFrames(images, parts, n)
    ensures ParityFree(parts) ==> StateAfter(st, images, parts, n).slots == st.slots
  {
    hide Flush, WholeFrame, Holding, FirstAt, HasData, SlotsAfter, Valid, NoLiveSlot, Led, AllComplete, PendingAfter,
      IsParity;
    if n > 0 {
      NothingFlushed(st, images, parts, n - 1);
      PendingIs(st, images, parts, n - 1);
      if AllComplete(images, parts) { NothingPending(images, parts, n - 1); }
      var before, part := StateAfter(st, images, parts, n - 1), parts[n - 1];
      if ParityFree(parts) { PartWithoutParity(before, part); }
      LedKeepsPending(before, part);
      NothingToFlush(Led(before, part));
      assert [] + WholeFrame(images, parts, n - 1) == WholeFrame(images, parts, n - 1);
    }
  }

  lemma {:induction false} LedKeepsPending(st: State, part: seq<Arrival>)
    requires Valid(st)
    ensures Led(st, part).current == st.current
  {}

  lemma {:induction false} ValidSlots(st: State)
    requires Valid(st)
    ensures |st.slots| == SLOTS && forall j :: 0 <= j < SLOTS ==> ValidSlot(st.slots[j])
  {}

  // A whole run delivers exactly the complete frames, whole, in order and once each, provided that
  // nothing is lost or that no parity is around to rebuild what is.
  lemma {:induction false} ManyFrames(crypto: Option<Cipher>, st: State, images: seq<Image>, parts: seq<seq<Arrival>>,
                                      n: nat)
    requires Valid(st) && st.current == BLANK && n <= |parts|
    requires Parts(crypto, images, parts) && Separated(images, parts)
    requires AllComplete(images, parts) || (ParityFree(parts) && NoLiveSlot(st.slots))
    ensures var r := Run(crypto, st, Flatten(parts, n));
      && r.0.current == PendingAfter(images, parts, n)
      && r.1 == WholeFrames(images, parts, n)
      && (ParityFree(parts) ==> r.0.slots == st.slots)
  {
    hide Run, PendingAfter, WholeFrames, Deliveries, StateAfter, Separated, Flatten, Valid, NoLiveSlot;
    LossyRun(crypto, st, images, parts, n);
    PendingIs(st, images, parts, n);
    NothingFlushed(st, images, parts, n);
  }

  // Late duplicates of a delivered frame start it again: it is delivered a second time exactly
  // when all its packets are duplicated.
  lemma {:induction false} LateDuplicates(crypto: Option<Cipher>, st: State, g: Image, a: seq<Arrival>,
                                          again: seq<Arrival>)
    requires Valid(st) && st.current == BLANK && g.chunks != []
    requires Concerns(crypto, a, g) && Tidy(|g.chunks|, a) && All(Flags(|g.chunks|, a))
    requires Concerns(crypto, again, g) && Tidy(|g.chunks|, again)
    ensures Run(crypto, st, a + again).1 ==
      [Whole(g, FirstAt(a))] + if All(Flags(|g.chunks|, again)) then [Whole(g, FirstAt(again))] else []
  {
    hide Run, Whole, Tidy, Concerns;
    var n := |g.chunks|;
    OneFrame(crypto, st, g, a);
    if !HasData(a) {
      FlagsWithoutData(n, a);
      NotAll(Flags(n, a), 0);
    }
    var mid := Run(crypto, st, a).0;
    OneFrame(crypto, mid, g, again);
    RunConcat(crypto, st, a, again);
  }
}
