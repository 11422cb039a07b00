// Rebuilding lost packets from parity at the receiver.
module Recovery {
  import opened Wrappers
  import opened LinearAlgebra
  import opened ErasureCode
  import opened VideoPackets
  import opened VideoReceiving
  import opened FrameTracking
  import opened VideoPipeline

  // ----- all or nothing

  // An attempt either leaves the pending frame alone or fills every missing packet, and never touches one
  // that was received.
  lemma {:induction false} RecoverAllOrNothing(st: State)
    requires Valid(st)
    ensures var c, d := st.current, Recover(st).current;
      d == c || (All(d.received) && |d.packets| == |c.packets| == d.receivedCount &&
                 forall i :: 0 <= i < |c.packets| && c.received[i] ==> d.packets[i] == c.packets[i])
  {
    hide Decoded;
  }

  // ----- when the rebuilt packets are right

  lemma {:induction false} CountConcat(p: seq<bool>, q: seq<bool>, n: nat)
    requires n <= |q|
    ensures Count(p + q, |p| + n) == Count(p, |p|) + Count(q, n)
  {
    if n > 0 {
      CountConcat(p, q, n - 1);
    } else {
      CountPrefix(p, q, |p|);
    }
  }

  lemma {:induction false} CountPrefix(p: seq<bool>, q: seq<bool>, n: nat)
    requires n <= |p|
    ensures Count(p + q, n) == Count(p, n)
  {
    if n > 0 { CountPrefix(p, q, n - 1); }
  }

  lemma {:induction false} CountTake(p: seq<bool>, m: nat, n: nat)
    requires n <= m <= |p|
    ensures Count(p[..m], n) == Count(p, n)
  {
    if n > 0 { CountTake(p, m, n - 1); }
  }

  lemma {:induction false} EnoughShards(c: PendingFrame, s: FecSlot)
    requires ValidPending(c) && ValidSlot(s) && Usable(c, s)
    ensures Count(RecoveryPresent(c, s), c.totalPackets + s.parityShardCount) >= c.totalPackets
  {
    var m := s.parityShardCount;
    CountConcat(c.received, s.parityPresent[..m], m);
    CountTake(s.parityPresent, m, m);
  }

  // Every packet received so far is the frame's own chunk.
  ghost predicate Holds(c: PendingFrame, chunks: seq<Vector>) {
    ValidPending(c) && |chunks| == c.totalPackets &&
    forall i :: 0 <= i < |chunks| && c.received[i] ==> c.packets[i] == chunks[i]
  }

  // The parity shards that decoding would use are those of the frame's chunks.
  ghost predicate ParityMatches(c: PendingFrame, s: FecSlot, chunks: seq<Vector>)
    requires ValidPending(c) && ValidSlot(s) && s.isRs && |chunks| == c.totalPackets
  {
    ParityMatch(c.totalPackets, s.parityShardCount, RecoveryShards(c, s), RecoveryPresent(c, s), RecoverySize(c, s),
                chunks)
  }

  lemma {:induction false} ReceivedShards(c: PendingFrame, s: FecSlot, chunks: seq<Vector>, i: nat)
    requires Holds(c, chunks) && ValidSlot(s) && s.isRs && i < |chunks| && RecoveryPresent(c, s)[i]
    ensures Padded(RecoveryShards(c, s)[i], RecoverySize(c, s)) == Padded(chunks[i], RecoverySize(c, s))
  {
    hide RecoverySize;
  }

  // Recovery from a usable slot always completes the frame. Byte by byte, up to the size it works with,
  // it does so rightly exactly when the parity shards it uses belong to the frame's own chunks.
  lemma {:induction false} RecoveryUpToSize(st: State, chunks: seq<Vector>)
    requires Valid(st) && Holds(st.current, chunks) && |chunks| <= 256
    requires FirstUsable(st.current, st.slots, 0) < |st.slots|
    requires WithinField(|chunks|, st.slots[FirstUsable(st.current, st.slots, 0)].parityShardCount)
    ensures var c, d := st.current, Recover(st).current;
      var s := st.slots[FirstUsable(c, st.slots, 0)];
      && All(d.received) && d.receivedCount == d.totalPackets == |chunks| == |d.packets|
      && (forall i :: 0 <= i < |chunks| ==>
            if c.received[i] then d.packets[i] == chunks[i] else |d.packets[i]| == RecoverySize(c, s))
      && (SameData(|chunks|, d.packets, chunks, RecoverySize(c, s)) <==> ParityMatches(c, s, chunks))
  {
    hide RecoverySize, RecoveryShards, RecoveryPresent, Decoded, PickedMatch, ParityMatch;
    var c, u := st.current, FirstUsable(st.current, st.slots, 0);
    var s, k := st.slots[u], |chunks|;
    var m, size := s.parityShardCount, RecoverySize(c, s);
    var shards, present := RecoveryShards(c, s), RecoveryPresent(c, s);
    EnoughShards(c, s);
    DecodeSucceedsIff(k, m, shards, present, size);
    DecodeIsExact(k, m, shards, present, size, chunks);
    forall i | 0 <= i < k && present[i] ensures Padded(shards[i], size) == Padded(chunks[i], size) {
      ReceivedShards(c, s, chunks, i);
    }
    OnlyParityCanDisagree(k, m, shards, present, size, chunks);
    var out := Decoded(k, m, shards, present, size).value;
    OutSizes(c, s, out);
    var d := FillMissing(c, out);
    assert Recover(st).current == d;
    assert SameData(k, d.packets, chunks, size) <==> SameData(k, out, chunks, size);
  }

  // The packet is the whole chunk, with zeros behind it where the packet is longer.
  predicate Restores(packet: Vector, chunk: Vector) {
    |chunk| <= |packet| && packet == Padded(chunk, |packet|)
  }

  // A recovered frame is right exactly when the parity shards used belong to its own chunks and none of the
  // missing chunks is longer than the size that recovery works with: neither parity left over from another
  // frame nor parity computed over encrypted payloads will do.
  lemma {:induction false} RecoveryIsExactIff(st: State, chunks: seq<Vector>)
    requires Valid(st) && Holds(st.current, chunks) && |chunks| <= 256
    requires FirstUsable(st.current, st.slots, 0) < |st.slots|
    requires WithinField(|chunks|, st.slots[FirstUsable(st.current, st.slots, 0)].parityShardCount)
    ensures var c, d := st.current, Recover(st).current;
      var s := st.slots[FirstUsable(c, st.slots, 0)];
      && d.receivedCount == d.totalPackets == |chunks| == |d.packets|
      && ((forall i :: 0 <= i < |chunks| ==> Restores(d.packets[i], chunks[i])) <==>
          && ParityMatches(c, s, chunks)
          && forall i :: 0 <= i < |chunks| && !c.received[i] ==> |chunks[i]| <= RecoverySize(c, s))
  {
    hide Recover, RecoverySize, ParityMatches, FirstUsable;
    RecoveryUpToSize(st, chunks);
    var c, d := st.current, Recover(st).current;
    var size := RecoverySize(c, st.slots[FirstUsable(c, st.slots, 0)]);
    forall i | 0 <= i < |chunks|
      ensures Restores(d.packets[i], chunks[i]) <==>
        c.received[i] || (|chunks[i]| <= size && SameBytes(d.packets[i], chunks[i], size))
      ensures c.received[i] ==> SameBytes(d.packets[i], chunks[i], size)
    {
      if !c.received[i] { RestoresIff(d.packets[i], chunks[i], size); } else { PaddedWhole(chunks[i], |chunks[i]|); }
    }
    SameDataBytes(d.packets, chunks, size);
  }

  predicate SameBytes(a: Vector, b: Vector, size: nat) {
    forall j :: 0 <= j < size ==> ByteAt(a, j) == ByteAt(b, j)
  }

  lemma {:induction false} RestoresIff(packet: Vector, chunk: Vector, size: nat)
    requires |packet| == size
    ensures Restores(packet, chunk) <==> |chunk| <= size && SameBytes(packet, chunk, size)
  {
    if SameBytes(packet, chunk, size) {
      assert forall j :: 0 <= j < size ==> packet[j] == ByteAt(packet, j) == Padded(chunk, size)[j];
    }
  }

  lemma {:induction false} SameDataBytes(a: seq<Vector>, b: seq<Vector>, size: nat)
    requires |a| == |b|
    ensures SameData(|a|, a, b, size) <==> forall i :: 0 <= i < |a| ==> SameBytes(a[i], b[i], size)
  {}

  lemma {:induction false} PaddedWhole(s: Vector, size: nat)
    requires |s| == size
    ensures Padded(s, size) == s
  {}

  lemma {:induction false} DataSlot(c: PendingFrame, s: FecSlot, i: nat)
    requires ValidPending(c) && ValidSlot(s) && s.isRs && i < c.totalPackets
    ensures RecoveryPresent(c, s)[i] == c.received[i]
    ensures c.received[i] ==> RecoveryShards(c, s)[i] == Padded(c.packets[i], RecoverySize(c, s))
  {
    hide RecoverySize, Padded;
  }

  lemma {:induction false} OutSizes(c: PendingFrame, s: FecSlot, out: seq<Vector>)
    requires ValidPending(c) && ValidSlot(s) && s.isRs && c.totalPackets == s.dataShardCount
    requires var shards, present := RecoveryShards(c, s), RecoveryPresent(c, s);
      Decoded(c.totalPackets, s.parityShardCount, shards, present, RecoverySize(c, s)) == Some(out)
    ensures |out| == c.totalPackets + s.parityShardCount
    ensures forall i :: 0 <= i < c.totalPackets ==>
      if c.received[i] then out[i] == Padded(c.packets[i], RecoverySize(c, s)) else |out[i]| == RecoverySize(c, s)
  {
    hide Decoded, RecoveryShards, RecoveryPresent, RecoverySize, Padded, Count;
    DecodedShards(c.totalPackets, s.parityShardCount, RecoveryShards(c, s), RecoveryPresent(c, s), RecoverySize(c, s),
                  out);
    forall i | 0 <= i < c.totalPackets
      ensures RecoveryPresent(c, s)[i] == c.received[i]
      ensures c.received[i] ==> RecoveryShards(c, s)[i] == Padded(c.packets[i], RecoverySize(c, s))
    {
      DataSlot(c, s, i);
    }
  }

  // ----- a frame's own parity

  // Parity packet j of m protecting k chunks, for slot group % 16.
  ghost predicate IsParityOf(a: Arrival, group: u8, chunks: seq<Vector>, m: nat, size: nat) {
    var hdr := a.packet.hdr;
    && IsParity(a) && RsFlag(hdr.flags) && hdr.fecGroupId == group
    && hdr.totalPackets == |chunks| && hdr.packetIndex == m && hdr.fecIndex < m
    && a.packet.payload == Parity(|chunks|, m, chunks, size)[hdr.fecIndex]
  }

  // Which parity packets have arrived.
  function ParityFlags(m: nat, arrivals: seq<Arrival>): (f: seq<bool>)
    ensures |f| == m
  {
    if arrivals == [] then seq(m, _ => false)
    else
      var f, a := ParityFlags(m, arrivals[..|arrivals| - 1]), arrivals[|arrivals| - 1];
      if IsParity(a) && a.packet.hdr.fecIndex < m then f[a.packet.hdr.fecIndex := true] else f
  }

  // The slot holds exactly the arrived parity shards of the frame, once one has arrived.
  ghost predicate OwnSlot(s: FecSlot, chunks: seq<Vector>, m: nat, size: nat, p: seq<bool>)
    requires |p| == m
  {
    && ValidSlot(s) && s.isRs && s.dataShardCount == |chunks| && s.parityShardCount == m && s.shardSize == size
    && forall i :: 0 <= i < m ==>
      s.parityPresent[i] == p[i] && (p[i] ==> s.parityShards[i] == Parity(|chunks|, m, chunks, size)[i])
  }

  predicate Flagged(s: FecSlot, i: nat) { i < |s.parityPresent| && s.parityPresent[i] }

  // The slot holds the arrived parity shards of the frame over what it held before.
  ghost predicate StoredOver(s: FecSlot, was: FecSlot, chunks: seq<Vector>, m: nat, size: nat, p: seq<bool>)
    requires |p| == m
  {
    && ValidSlot(s) && ValidSlot(was)
    && s.isRs && s.dataShardCount == |chunks| && s.parityShardCount == m && s.shardSize == Max(was.shardSize, size)
    && forall i :: 0 <= i < m ==>
      && s.parityPresent[i] == (p[i] || Flagged(was, i))
      && (p[i] ==> s.parityShards[i] == Parity(|chunks|, m, chunks, size)[i])
      && (!p[i] && Flagged(was, i) ==> s.parityShards[i] == was.parityShards[i])
  }

  lemma {:induction false} StoreOwn(s: FecSlot, was: FecSlot, a: Arrival, group: u8, chunks: seq<Vector>, m: nat,
                                    size: nat, p: seq<bool>)
    requires |p| == m && IsParityOf(a, group, chunks, m, size) && ValidSlot(s)
    requires (s == was && !SomeKept(p)) || StoredOver(s, was, chunks, m, size, p)
    ensures var t := StoreParity(s, a.packet.hdr, a.packet.payload);
      StoredOver(t, was, chunks, m, size, p[a.packet.hdr.fecIndex := true])
  {
    hide Parity;
    ParitySize(|chunks|, m, chunks, size, a.packet.hdr.fecIndex);
  }

  // Every flag below m that was left over has been set again by the frame's own parity.
  predicate Covered(was: FecSlot, m: nat, size: nat, p: seq<bool>)
    requires |p| == m
  {
    was.shardSize <= size && forall i :: 0 <= i < m && Flagged(was, i) ==> p[i]
  }

  lemma {:induction false} CoveredSlotIsOwn(s: FecSlot, was: FecSlot, chunks: seq<Vector>, m: nat, size: nat,
                                            p: seq<bool>)
    requires |p| == m && StoredOver(s, was, chunks, m, size, p) && Covered(was, m, size, p)
    ensures OwnSlot(s, chunks, m, size, p)
  {
    hide Parity;
  }

  lemma {:induction false} ParitySize(k: nat, m: nat, chunks: seq<Vector>, size: nat, i: nat)
    requires |chunks| == k && i < m
    ensures |Parity(k, m, chunks, size)[i]| == size
  {
    hide EncMatrix;
  }

  // Data packets and the frame's own parity only touch the frame's own slot, and leave there what was not
  // overwritten.
  lemma {:induction false} SlotsWithOwnParity(slots: seq<FecSlot>, arrivals: seq<Arrival>, group: u8,
                                              chunks: seq<Vector>, m: nat, size: nat)
    requires |slots| == SLOTS && forall j :: 0 <= j < SLOTS ==> ValidSlot(slots[j])
    requires forall i :: 0 <= i < |arrivals| && IsParity(arrivals[i]) ==>
      IsParityOf(arrivals[i], group, chunks, m, size)
    ensures var t, p, u := SlotsAfter(slots, arrivals), ParityFlags(m, arrivals), group % SLOTS;
      && (forall j :: 0 <= j < SLOTS && j != u ==> t[j] == slots[j])
      && (if !SomeKept(p) then t[u] == slots[u] else StoredOver(t[u], slots[u], chunks, m, size, p))
  {
    hide StoreParity, StoredOver, IsParityOf;
    if arrivals != [] {
      var before, a := arrivals[..|arrivals| - 1], arrivals[|arrivals| - 1];
      SlotsWithOwnParity(slots, before, group, chunks, m, size);
      if IsParity(a) {
        var u := group % SLOTS;
        OwnHeader(a, group, chunks, m, size);
        StoreOwn(SlotsAfter(slots, before)[u], slots[u], a, group, chunks, m, size, ParityFlags(m, before));
        assert ParityFlags(m, arrivals)[a.packet.hdr.fecIndex];
        assert SomeKept(ParityFlags(m, arrivals));
      }
    }
  }

  lemma {:induction false} OwnHeader(a: Arrival, group: u8, chunks: seq<Vector>, m: nat, size: nat)
    requires IsParityOf(a, group, chunks, m, size)
    ensures RsFlag(a.packet.hdr.flags) && a.packet.hdr.fecGroupId == group && a.packet.hdr.fecIndex < m
  {}
}
