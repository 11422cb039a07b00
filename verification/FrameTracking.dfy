// How the receiver tracks frames: what every run delivers when packets are lost, reordered or duplicated.
module FrameTracking {
  import opened Wrappers
  import opened LinearAlgebra
  import opened ErasureCode
  import opened VideoPackets
  import opened VideoReceiving

  // What the data packets of one frame say between them.
  datatype Image = Image(number: u16, chunks: seq<Vector>, isIdr: bool, hostProcTime: u16)

  predicate IsParity(a: Arrival) { a.packet.hdr.payloadType == FEC_TYPE }

  // A data packet of the frame, intact after decryption.
  ghost predicate IsOf(crypto: Option<Cipher>, a: Arrival, g: Image) {
    var hdr := a.packet.hdr;
    && !IsParity(a)
    && hdr.frameNumber == g.number && hdr.totalPackets == |g.chunks| && hdr.packetIndex < |g.chunks|
    && IdrFlag(hdr.flags) == g.isIdr && hdr.hostProcTime == g.hostProcTime
    && Open(crypto, a.packet) == Some(g.chunks[hdr.packetIndex])
  }

  // Only data packets of the frame, and parity packets of any frame.
  ghost predicate Concerns(crypto: Option<Cipher>, arrivals: seq<Arrival>, g: Image) {
    forall j :: 0 <= j < |arrivals| ==> IsParity(arrivals[j]) || IsOf(crypto, arrivals[j], g)
  }

  // Which chunks have arrived.
  function Flags(n: nat, arrivals: seq<Arrival>): (f: seq<bool>)
    ensures |f| == n
  {
    if arrivals == [] then seq(n, _ => false)
    else
      var f, a := Flags(n, arrivals[..|arrivals| - 1]), arrivals[|arrivals| - 1];
      if IsParity(a) || a.packet.hdr.packetIndex >= n then f else f[a.packet.hdr.packetIndex := true]
  }

  predicate All(f: seq<bool>) { forall i :: 0 <= i < |f| ==> f[i] }

  // No data packet arrives once the frame is complete.
  ghost predicate Tidy(n: nat, arrivals: seq<Arrival>) {
    forall j :: 0 <= j < |arrivals| && !IsParity(arrivals[j]) ==> !All(Flags(n, arrivals[..j]))
  }

  predicate HasData(arrivals: seq<Arrival>) {
    arrivals != [] && (HasData(arrivals[..|arrivals| - 1]) || !IsParity(arrivals[|arrivals| - 1]))
  }

  // The arrival time of the first data packet, 0 when there is none.
  function FirstAt(arrivals: seq<Arrival>): int {
    if !HasData(arrivals) then 0
    else if HasData(arrivals[..|arrivals| - 1]) then FirstAt(arrivals[..|arrivals| - 1])
    else arrivals[|arrivals| - 1].at
  }

  // The pending frame while some chunks are missing.
  function Tracking(g: Image, f: seq<bool>, at: int): PendingFrame
    requires |f| == |g.chunks|
  {
    PendingFrame(g.number, |g.chunks|, Count(f, |f|), at, g.hostProcTime, g.isIdr,
                 seq(|f|, i requires 0 <= i < |f| => if f[i] then g.chunks[i] else []), f)
  }

  // The frame as the callback should see it.
  function Whole(g: Image, at: int): Delivery {
    Delivery(g.number, Concat(g.chunks), at, g.isIdr, |g.chunks|)
  }

  // The parity slots after the parity packets among the arrivals.
  function SlotsAfter(slots: seq<FecSlot>, arrivals: seq<Arrival>): (t: seq<FecSlot>)
    requires |slots| == SLOTS && forall j :: 0 <= j < SLOTS ==> ValidSlot(slots[j])
    ensures |t| == SLOTS && forall j :: 0 <= j < SLOTS ==> ValidSlot(t[j])
  {
    if arrivals == [] then slots
    else
      var t, a := SlotsAfter(slots, arrivals[..|arrivals| - 1]), arrivals[|arrivals| - 1];
      if IsParity(a) then StoreFec(t, a.packet.hdr, a.packet.payload) else t
  }

  // ----- one packet

  lemma {:induction false} StoreTracks(g: Image, f: seq<bool>, at: int, i: nat)
    requires |f| == |g.chunks| && i < |f|
    ensures ValidPending(Tracking(g, f, at))
    ensures Store(Tracking(g, f, at), i, g.chunks[i]) == Tracking(g, f[i := true], at)
  {
    var c, d := Tracking(g, f, at), Tracking(g, f[i := true], at);
    if f[i] {
      assert f[i := true] == f;
    } else {
      CountSet(f, i, |f|);
      assert Store(c, i, g.chunks[i]).packets == d.packets;
    }
  }

  lemma {:induction false} CompleteIff(g: Image, f: seq<bool>, at: int)
    requires |f| == |g.chunks|
    ensures var c := Tracking(g, f, at);
      && (c.receivedCount == c.totalPackets <==> All(f))
      && (All(f) ==> c.packets == g.chunks && Assembled(c) == Whole(g, at))
  {
    CountFull(f, |f|);
    if All(f) { assert Tracking(g, f, at).packets == g.chunks; }
  }

  // The state of a receiver that holds the chunks f of the frame, blank once it is complete.
  function Holding(g: Image, f: seq<bool>, at: int): PendingFrame
    requires |f| == |g.chunks|
  {
    if All(f) then BLANK else Tracking(g, f, at)
  }

  lemma {:induction false} NoFlush(d: Delivery)
    ensures [] + [d] == [d]
  {}

  lemma {:induction false} NextPacket(crypto: Option<Cipher>, st: State, g: Image, f: seq<bool>, at: int, a: Arrival)
    requires Valid(st) && |f| == |g.chunks| > 0 && !All(f) && st.current == Tracking(g, f, at) && IsOf(crypto, a, g)
    ensures var f' := f[a.packet.hdr.packetIndex := true];
      Step(crypto, st, a) == (State(Holding(g, f', at), st.slots), if All(f') then [Whole(g, at)] else [])
  {
    hide Store, Assembled;
    var i := a.packet.hdr.packetIndex;
    StoreTracks(g, f, at, i);
    CompleteIff(g, f[i := true], at);
    NoFlush(Whole(g, at));
  }

  // The first packet of a frame on a blank receiver.
  lemma {:induction false} FirstPacket(crypto: Option<Cipher>, st: State, g: Image, a: Arrival)
    requires Valid(st) && st.current == BLANK && IsOf(crypto, a, g)
    ensures var f' := seq(|g.chunks|, _ => false)[a.packet.hdr.packetIndex := true];
      Step(crypto, st, a) == (State(Holding(g, f', a.at), st.slots), if All(f') then [Whole(g, a.at)] else [])
  {
    hide Store, Assembled;
    var i := a.packet.hdr.packetIndex;
    var f := seq(|g.chunks|, _ => false);
    NoneCounted(|g.chunks|);
    assert Opened(a.packet.hdr, a.at) == Tracking(g, f, a.at);
    StoreTracks(g, f, a.at, i);
    CompleteIff(g, f[i := true], a.at);
    NoFlush(Whole(g, a.at));
  }

  lemma {:induction false} ParityPacket(crypto: Option<Cipher>, st: State, a: Arrival)
    requires Valid(st) && IsParity(a)
    ensures Step(crypto, st, a) == (st.(slots := StoreFec(st.slots, a.packet.hdr, a.packet.payload)), [])
  {}

  // ----- one frame

  lemma {:induction false} FlagsWithoutData(n: nat, arrivals: seq<Arrival>)
    requires !HasData(arrivals)
    ensures Flags(n, arrivals) == seq(n, _ => false)
  {
    if arrivals != [] { FlagsWithoutData(n, arrivals[..|arrivals| - 1]); }
  }

  lemma {:induction false} TidyPrefix(n: nat, arrivals: seq<Arrival>, a: Arrival)
    requires Tidy(n, arrivals + [a])
    ensures Tidy(n, arrivals)
    ensures !IsParity(a) ==> !All(Flags(n, arrivals))
  {
    hide Flags, All;
    var all := arrivals + [a];
    forall j | 0 <= j < |arrivals| && !IsParity(arrivals[j]) ensures !All(Flags(n, arrivals[..j])) {
      assert arrivals[..j] == all[..j];
      assert !IsParity(all[j]);
    }
    assert all[..|arrivals|] == arrivals && all[|arrivals|] == a;
  }

  // What a blank receiver makes of the packets of one frame, in any order, with duplicates before
  // completion and with parity packets anywhere: the chunks that arrived, nothing delivered until all
  // have, and then the whole frame once.
  lemma {:induction false} OneFrame(crypto: Option<Cipher>, st: State, g: Image, arrivals: seq<Arrival>)
    requires Valid(st) && st.current == BLANK && g.chunks != []
    requires Concerns(crypto, arrivals, g) && Tidy(|g.chunks|, arrivals)
    ensures var f := Flags(|g.chunks|, arrivals);
      Run(crypto, st, arrivals) ==
        (State(if HasData(arrivals) then Holding(g, f, FirstAt(arrivals)) else BLANK, SlotsAfter(st.slots, arrivals)),
         if All(f) then [Whole(g, FirstAt(arrivals))] else [])
    decreases |arrivals|
  {
    hide Step, StoreFec, Whole, ValidPending, ValidSlot, Tidy, Holding, All;
    var n := |g.chunks|;
    if arrivals == [] {
      NotAll(seq(n, _ => false), 0);
    } else {
      var before, a := arrivals[..|arrivals| - 1], arrivals[|arrivals| - 1];
      assert arrivals == before + [a];
      TidyPrefix(n, before, a);
      OneFrame(crypto, st, g, before);
      OneMore(crypto, Run(crypto, st, before).0, g, before, a);
      if !HasData(before) {
        FlagsWithoutData(n, before);
        NotAll(Flags(n, before), 0);
      }
      var (mid, delivered) := Run(crypto, st, before);
      var (after, last) := Step(crypto, mid, a);
      assert IsParity(a) ==> delivered + last == delivered;
      assert !IsParity(a) ==> delivered + last == last;
    }
  }

  lemma {:induction false} NotAll(f: seq<bool>, i: nat)
    requires i < |f| && !f[i]
    ensures !All(f)
  {}

  // One more packet on a receiver that holds what `before` brought.
  lemma {:induction false} OneMore(crypto: Option<Cipher>, st: State, g: Image, before: seq<Arrival>, a: Arrival)
    requires Valid(st) && g.chunks != [] && (IsParity(a) || IsOf(crypto, a, g))
    requires !IsParity(a) ==> !All(Flags(|g.chunks|, before))
    requires st.current == if HasData(before) then Holding(g, Flags(|g.chunks|, before), FirstAt(before)) else BLANK
    ensures (before + [a])[..|before|] == before
    ensures var f := Flags(|g.chunks|, before + [a]);
      Step(crypto, st, a) ==
        (State(if HasData(before + [a]) then Holding(g, f, FirstAt(before + [a])) else BLANK,
               if IsParity(a) then StoreFec(st.slots, a.packet.hdr, a.packet.payload) else st.slots),
         if !IsParity(a) && All(f) then [Whole(g, FirstAt(before + [a]))] else [])
  {
    hide Step, StoreFec, Whole, Valid, All, Tracking;
    assert (before + [a])[..|before|] == before;
    if IsParity(a) {
      ParityPacket(crypto, st, a);
    } else if HasData(before) {
      NextPacket(crypto, st, g, Flags(|g.chunks|, before), FirstAt(before), a);
    } else {
      FlagsWithoutData(|g.chunks|, before);
      FirstPacket(crypto, st, g, a);
    }
  }
}
