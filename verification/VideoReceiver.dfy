// Reassembly and recovery of video_receiver.cpp: one step per arriving packet.
module VideoReceiving {
  import opened Wrappers
  import opened Bytes
  import opened LinearAlgebra
  import opened GaloisTables
  import opened ErasureCode
  import opened ReedSolomonCodec
  import opened VideoPackets

  datatype PendingFrame = PendingFrame(
    frameNumber: nat,
    totalPackets: nat,
    receivedCount: nat,
    firstPacketTime: int,
    hostProcTime: nat,
    isIdr: bool,
    packets: seq<Vector>,
    received: seq<bool>)

  const BLANK := PendingFrame(0, 0, 0, 0, 0, false, [], [])

  datatype FecSlot = FecSlot(
    dataShardCount: nat,
    parityShardCount: nat,
    shardSize: nat,
    groupId: nat,
    isRs: bool,
    parityShards: seq<Vector>,
    parityPresent: seq<bool>)

  const EMPTY_SLOT := FecSlot(0, 0, 0, 0, false, [], [])

  const SLOTS := 16

  // What the frame callback receives.
  datatype Delivery = Delivery(frameNumber: nat, data: seq<Byte>, recvTimeUs: int, isIdr: bool, totalPackets: nat)

  datatype State = State(current: PendingFrame, slots: seq<FecSlot>)

  datatype Arrival = Arrival(packet: Packet, at: int)

  // ----- what holds at every moment, for arbitrary packets

  predicate ValidPending(c: PendingFrame) {
    |c.packets| == |c.received| == c.totalPackets && c.receivedCount == Count(c.received, |c.received|)
  }

  predicate ValidSlot(s: FecSlot) {
    |s.parityShards| == |s.parityPresent| && (s.isRs ==> s.parityShardCount <= |s.parityShards|)
  }

  // The pending frame is blank or strictly incomplete.
  predicate Valid(st: State) {
    && ValidPending(st.current)
    && (st.current == BLANK || st.current.receivedCount < st.current.totalPackets)
    && |st.slots| == SLOTS && forall j :: 0 <= j < SLOTS ==> ValidSlot(st.slots[j])
  }

  // ----- parity packets

  function Max(a: nat, b: nat): nat { if a >= b then a else b }

  // The slot after a parity packet; sizes only ever grow, and old flags stay.
  function StoreParity(s: FecSlot, hdr: Header, payload: seq<Byte>): (t: FecSlot)
    requires ValidSlot(s)
    ensures ValidSlot(t)
  {
    var m := hdr.packetIndex;
    var shards := s.parityShards + seq(Max(m, |s.parityShards|) - |s.parityShards|, _ => []);
    var present := s.parityPresent + seq(Max(m, |s.parityShards|) - |s.parityShards|, _ => false);
    FecSlot(hdr.totalPackets, m, Max(s.shardSize, |payload|), hdr.fecGroupId, true,
            if hdr.fecIndex < m then shards[hdr.fecIndex := payload] else shards,
            if hdr.fecIndex < m then present[hdr.fecIndex := true] else present)
  }

  function StoreFec(slots: seq<FecSlot>, hdr: Header, payload: seq<Byte>): (t: seq<FecSlot>)
    requires |slots| == SLOTS && forall j :: 0 <= j < SLOTS ==> ValidSlot(slots[j])
    ensures |t| == SLOTS && forall j :: 0 <= j < SLOTS ==> ValidSlot(t[j])
  {
    var g := hdr.fecGroupId % SLOTS;
    if RsFlag(hdr.flags) then slots[g := StoreParity(slots[g], hdr, payload)] else slots
  }

  // ----- recovery

  // Enough shards for the pending frame: k data slots, and no more missing than parity shards there.
  predicate Usable(c: PendingFrame, s: FecSlot)
    requires ValidPending(c) && ValidSlot(s)
  {
    && s.isRs && s.dataShardCount != 0 && s.dataShardCount == c.totalPackets
    && c.receivedCount < c.totalPackets
    && c.receivedCount + Count(s.parityPresent, s.parityShardCount) >= c.totalPackets
  }

  // The first usable slot at or after j.
  function FirstUsable(c: PendingFrame, slots: seq<FecSlot>, j: nat): (u: nat)
    requires ValidPending(c) && j <= |slots| && forall i :: 0 <= i < |slots| ==> ValidSlot(slots[i])
    ensures j <= u <= |slots|
    ensures forall i :: j <= i < u ==> !Usable(c, slots[i])
    ensures u < |slots| ==> Usable(c, slots[u])
    decreases |slots| - j
  {
    if j == |slots| || Usable(c, slots[j]) then j else FirstUsable(c, slots, j + 1)
  }

  // The largest of size and the received payloads below n.
  function SizeOver(c: PendingFrame, size: nat, n: nat): (r: nat)
    requires ValidPending(c) && n <= c.totalPackets
    ensures r >= size && forall i :: 0 <= i < n && c.received[i] ==> |c.packets[i]| <= r
    ensures r == size || exists i :: 0 <= i < n && c.received[i] && |c.packets[i]| == r
  {
    if n == 0 then size
    else
      var r := SizeOver(c, size, n - 1);
      if c.received[n - 1] then Max(r, |c.packets[n - 1]|) else r
  }

  // The largest of the slot's shards and the received payloads.
  function RecoverySize(c: PendingFrame, s: FecSlot): (r: nat)
    requires ValidPending(c)
    ensures r >= s.shardSize && forall i :: 0 <= i < c.totalPackets && c.received[i] ==> |c.packets[i]| <= r
    ensures r == s.shardSize || exists i :: 0 <= i < c.totalPackets && c.received[i] && |c.packets[i]| == r
  {
    SizeOver(c, s.shardSize, c.totalPackets)
  }

  // Received data and stored parity, zero padded; missing shards are empty.
  function RecoveryShards(c: PendingFrame, s: FecSlot): (r: seq<Vector>)
    requires ValidPending(c) && ValidSlot(s) && s.isRs
    ensures |r| == c.totalPackets + s.parityShardCount
  {
    var k, size := c.totalPackets, RecoverySize(c, s);
    seq(k, i requires 0 <= i < k => if c.received[i] then Padded(c.packets[i], size) else [])
    + seq(s.parityShardCount, i requires 0 <= i < s.parityShardCount =>
        if s.parityPresent[i] then Padded(s.parityShards[i], size) else [])
  }

  function RecoveryPresent(c: PendingFrame, s: FecSlot): (p: seq<bool>)
    requires ValidPending(c) && ValidSlot(s) && s.isRs
    ensures |p| == c.totalPackets + s.parityShardCount
  {
    c.received + s.parityPresent[..s.parityShardCount]
  }

  // Every missing packet taken from the decoded shards.
  function FillMissing(c: PendingFrame, shards: seq<Vector>): (d: PendingFrame)
    requires ValidPending(c) && |shards| >= c.totalPackets
    ensures |d.packets| == |d.received| == d.totalPackets == c.totalPackets == d.receivedCount
    ensures forall i :: 0 <= i < c.totalPackets ==>
      d.received[i] && d.packets[i] == if c.received[i] then c.packets[i] else shards[i]
  {
    c.(packets := seq(c.totalPackets, i requires 0 <= i < c.totalPackets =>
         if c.received[i] then c.packets[i] else shards[i]),
       received := seq(c.totalPackets, _ => true),
       receivedCount := c.totalPackets)
  }

  function MarkUsed(s: FecSlot): FecSlot {
    s.(isRs := false, dataShardCount := 0)
  }

  // The pending frame and the slots after an attempted recovery.
  ghost function Recover(st: State): (r: State)
    requires ValidPending(st.current) && forall j :: 0 <= j < |st.slots| ==> ValidSlot(st.slots[j])
    ensures |r.slots| == |st.slots| && forall j :: 0 <= j < |r.slots| ==> ValidSlot(r.slots[j])
  {
    var u := FirstUsable(st.current, st.slots, 0);
    if u == |st.slots| then st
    else
      var s := st.slots[u];
      var slots := st.slots[u := MarkUsed(s)];
      match Decoded(s.dataShardCount, s.parityShardCount, RecoveryShards(st.current, s),
                    RecoveryPresent(st.current, s), RecoverySize(st.current, s))
      case None => State(st.current, slots)
      case Some(out) => State(FillMissing(st.current, out), slots)
  }

  // ----- assembly

  function Concat(packets: seq<Vector>): seq<Byte> {
    if packets == [] then [] else Concat(packets[..|packets| - 1]) + packets[|packets| - 1]
  }

  function Assembled(c: PendingFrame): Delivery {
    Delivery(c.frameNumber, Concat(c.packets), c.firstPacketTime, c.isIdr, c.totalPackets)
  }

  // ----- the step

  // Before a new frame replaces it, a partly received frame gets one recovery attempt.
  ghost function Flush(st: State): (r: (seq<FecSlot>, seq<Delivery>))
    requires Valid(st)
    ensures |r.0| == SLOTS && forall j :: 0 <= j < SLOTS ==> ValidSlot(r.0[j])
  {
    if 0 < st.current.receivedCount < st.current.totalPackets then
      var d := Recover(st);
      (d.slots, if d.current.receivedCount == d.current.totalPackets then [Assembled(d.current)] else [])
    else (st.slots, [])
  }

  function Opened(hdr: Header, at: int): (c: PendingFrame)
    ensures ValidPending(c)
  {
    NoneCounted(hdr.totalPackets);
    PendingFrame(hdr.frameNumber, hdr.totalPackets, 0, at, hdr.hostProcTime, IdrFlag(hdr.flags),
                 seq(hdr.totalPackets, _ => []), seq(hdr.totalPackets, _ => false))
  }

  lemma {:induction false} CountFalse(p: seq<bool>, n: nat)
    requires n <= |p| && forall i :: 0 <= i < n ==> !p[i]
    ensures Count(p, n) == 0
  {
    if n > 0 { CountFalse(p, n - 1); }
  }

  lemma {:induction false} NoneCounted(n: nat)
    ensures Count(seq(n, _ => false), n) == 0
  {
    CountFalse(seq(n, _ => false), n);
  }

  // The packet is stored unless its index is out of range or already filled.
  function Store(c: PendingFrame, idx: nat, payload: seq<Byte>): (d: PendingFrame)
    requires ValidPending(c)
    ensures ValidPending(d) && d.totalPackets == c.totalPackets
  {
    if idx < c.totalPackets && !c.received[idx] then
      CountSet(c.received, idx, |c.received|);
      c.(packets := c.packets[idx := payload],
         received := c.received[idx := true],
         receivedCount := c.receivedCount + 1)
    else c
  }

  lemma {:induction false} CountSet(p: seq<bool>, idx: nat, n: nat)
    requires idx < |p| && n <= |p| && !p[idx]
    ensures Count(p[idx := true], n) == Count(p, n) + if idx < n then 1 else 0
  {
    if n > 0 { CountSet(p, idx, n - 1); }
  }

  lemma {:induction false} CountBelow(p: seq<bool>, n: nat, i: nat)
    requires i < n <= |p| && !p[i]
    ensures Count(p, n) < n
  {
    if n - 1 > i { CountBelow(p, n - 1, i); }
  }

  lemma {:induction false} CountFull(p: seq<bool>, n: nat)
    requires n <= |p|
    ensures Count(p, n) == n <==> forall i :: 0 <= i < n ==> p[i]
  {
    if n > 0 { CountFull(p, n - 1); }
  }

  predicate StartsFrame(c: PendingFrame, hdr: Header) {
    hdr.frameNumber != c.frameNumber || c.totalPackets == 0
  }

  // A data packet with its opened payload.
  ghost function DataStep(st: State, hdr: Header, payload: seq<Byte>, at: int): (r: (State, seq<Delivery>))
    requires Valid(st)
    ensures Valid(r.0)
  {
    var (slots, flushed) := if StartsFrame(st.current, hdr) then Flush(st) else (st.slots, []);
    var c := Store(if StartsFrame(st.current, hdr) then Opened(hdr, at) else st.current, hdr.packetIndex, payload);
    if c.receivedCount == c.totalPackets then (State(BLANK, slots), flushed + [Assembled(c)])
    else (State(c, slots), flushed)
  }

  ghost function Step(crypto: Option<Cipher>, st: State, a: Arrival): (r: (State, seq<Delivery>))
    requires Valid(st)
    ensures Valid(r.0)
  {
    match Open(crypto, a.packet)
    case None => (st, [])
    case Some(payload) =>
      if a.packet.hdr.payloadType == FEC_TYPE then (st.(slots := StoreFec(st.slots, a.packet.hdr, payload)), [])
      else DataStep(st, a.packet.hdr, payload, a.at)
  }

  // A whole run: the state reached and everything delivered on the way.
  ghost function Run(crypto: Option<Cipher>, st: State, arrivals: seq<Arrival>): (r: (State, seq<Delivery>))
    requires Valid(st)
    ensures Valid(r.0)
  {
    if arrivals == [] then (st, [])
    else
      var (before, delivered) := Run(crypto, st, arrivals[..|arrivals| - 1]);
      var (after, last) := Step(crypto, before, arrivals[|arrivals| - 1]);
      (after, delivered + last)
  }

  // What a packet cannot do: a data packet that fails to decrypt changes nothing, and a parity packet, never
  // decrypted, touches no pending frame and no slot but its own, and that only under the Reed-Solomon flag.
  lemma {:induction false} Untouched(crypto: Option<Cipher>, st: State, a: Arrival)
    requires Valid(st)
    ensures var hdr, r := a.packet.hdr, Step(crypto, st, a);
      && (hdr.payloadType != 97 && crypto.Some?
          && crypto.value.decrypt(Nonce(hdr.ssrc, hdr.frameNumber, hdr.sequence), a.packet.payload) == [] ==>
            r == (st, []))
      && (hdr.payloadType == 97 ==>
          && r.0.current == st.current && r.1 == []
          && (forall j :: 0 <= j < 16 && j != hdr.fecGroupId % 16 ==> r.0.slots[j] == st.slots[j])
          && (hdr.flags / 4 % 2 == 0 ==> r.0 == st))
  {
    hide DataStep, StoreParity;
  }

  const INITIAL := State(BLANK, seq(SLOTS, _ => EMPTY_SLOT))

  class VideoReceiver {
    const gf: GaloisField
    const crypto: Option<Cipher>
    var current: PendingFrame
    var slots: seq<FecSlot>
    // Every callback made so far.
    var delivered: seq<Delivery>

    ghost function Value(): State
      reads this
    {
      State(current, slots)
    }

    ghost predicate Ok()
      reads this
    {
      gf.Valid() && Valid(Value())
    }

    constructor (gf: GaloisField, crypto: Option<Cipher>)
      requires gf.Valid()
      ensures Ok() && Value() == INITIAL && delivered == []
      ensures this.crypto == crypto
    {
      this.gf, this.crypto := gf, crypto;
      current, slots, delivered := BLANK, seq(SLOTS, _ => EMPTY_SLOT), [];
    }

    // One iteration of the receive loop.
    method OnPacket(a: Arrival)
      requires Ok()
      modifies this
      ensures Ok()
      ensures Value() == Step(crypto, old(Value()), a).0
      ensures delivered == old(delivered) + Step(crypto, old(Value()), a).1
    {
      hide Store, Opened, StoreParity, Flush, Assembled, Open;
      var hdr := a.packet.hdr;
      var payload := Open(crypto, a.packet);
      if payload.None? { return; }
      if hdr.payloadType == FEC_TYPE {
        slots := StoreFec(slots, hdr, payload.value);
        return;
      }
      OnData(hdr, payload.value, a.at);
    }

    method OnData(hdr: Header, payload: seq<Byte>, at: int)
      requires Ok()
      modifies this
      ensures Ok()
      ensures Value() == DataStep(old(Value()), hdr, payload, at).0
      ensures delivered == old(delivered) + DataStep(old(Value()), hdr, payload, at).1
    {
      hide Flush, gf.Valid, Concat;
      ghost var before, log := Value(), delivered;
      if StartsFrame(current, hdr) {
        FlushCurrent();
        current := Opened(hdr, at);
      }
      assert slots == (if StartsFrame(before.current, hdr) then Flush(before).0 else before.slots);
      current := Store(current, hdr.packetIndex, payload);
      if current.receivedCount == current.totalPackets {
        TryAssembleFrame();
      }
    }

    // Gives a partly received frame its recovery attempt.
    method FlushCurrent()
      requires Ok()
      modifies this
      ensures slots == Flush(old(Value())).0
      ensures delivered == old(delivered) + Flush(old(Value())).1
    {
      hide Recover, gf.Valid, Concat;
      if 0 < current.receivedCount && current.receivedCount < current.totalPackets {
        TryRsFecRecovery();
        if current.receivedCount == current.totalPackets {
          TryAssembleFrame();
        }
      }
    }

    // Concatenates the packets, hands the frame over and clears the pending frame.
    method TryAssembleFrame()
      modifies this
      ensures slots == old(slots) && current == BLANK
      ensures delivered == old(delivered) + [Assembled(old(current))]
    {
      var frameData: seq<Byte> := [];
      for i := 0 to |current.packets|
        invariant current == old(current) && slots == old(slots) && delivered == old(delivered)
        invariant frameData == Concat(current.packets[..i])
      {
        assert current.packets[..i + 1][..i] == current.packets[..i];
        frameData := frameData + current.packets[i];
      }
      assert current.packets[..|current.packets|] == current.packets;
      delivered := delivered +
        [Delivery(current.frameNumber, frameData, current.firstPacketTime, current.isIdr, current.totalPackets)];
      current := BLANK;
    }

    // Tries the first slot that has enough shards for the pending frame.
    method TryRsFecRecovery()
      requires Ok()
      modifies this
      ensures Value() == Recover(old(Value())) && delivered == old(delivered)
    {
      hide Recover, gf.Valid;
      ghost var before := Value();
      for j := 0 to |slots|
        invariant Value() == before && delivered == old(delivered)
        invariant FirstUsable(current, slots, 0) == FirstUsable(current, slots, j)
      {
        var usable := HasEnoughShards(slots[j]);
        if usable {
          UseSlot(j);
          return;
        }
      }
      RecoverNothing(before);
    }

    // The checks that make the scan skip a slot.
    method HasEnoughShards(fs: FecSlot) returns (usable: bool)
      requires Ok() && ValidSlot(fs)
      ensures usable == Usable(current, fs)
    {
      if !fs.isRs || fs.dataShardCount == 0 { return false; }
      var k, m := fs.dataShardCount, fs.parityShardCount;
      if k != current.totalPackets { return false; }
      var missingData := 0;
      for i := 0 to k
        invariant missingData == i - Count(current.received, i)
      {
        if !current.received[i] { missingData := missingData + 1; }
      }
      if missingData == 0 { return false; }
      var availableParity := 0;
      for i := 0 to m
        invariant availableParity == Count(fs.parityPresent, i)
      {
        if fs.parityPresent[i] { availableParity := availableParity + 1; }
      }
      return k - missingData + availableParity >= k;
    }

    // Decodes with the shards at hand, copies the missing packets back and retires the slot.
    method UseSlot(j: nat)
      requires Ok() && j < |slots| && FirstUsable(current, slots, 0) == j
      modifies this
      ensures Value() == Recover(old(Value())) && delivered == old(delivered)
    {
      hide gf.Valid, Decoded, RecoveryShards, RecoveryPresent, RecoverySize;
      var fs := slots[j];
      var k, m := fs.dataShardCount, fs.parityShardCount;
      var shardSize := FindShardSize(fs);
      var shards, present := BuildShards(fs, shardSize);
      var rs := new ReedSolomon(gf, k, m);
      var ok := rs.Decode(shards, present, shardSize);
      if ok { CopyBack(shards); }
      slots := slots[j := fs.(isRs := false, dataShardCount := 0)];
    }

    method FindShardSize(fs: FecSlot) returns (shardSize: nat)
      requires ValidPending(current)
      ensures shardSize == RecoverySize(current, fs)
    {
      shardSize := fs.shardSize;
      for i := 0 to current.totalPackets
        invariant shardSize == SizeOver(current, fs.shardSize, i)
      {
        if current.received[i] { shardSize := Max(shardSize, |current.packets[i]|); }
      }
    }

    // The shard buffers: data first, then parity, each zero padded to the shard size.
    method BuildShards(fs: FecSlot, shardSize: nat) returns (shards: array<Vector>, present: seq<bool>)
      requires ValidPending(current) && ValidSlot(fs) && fs.isRs && shardSize == RecoverySize(current, fs)
      ensures fresh(shards) && shards[..] == RecoveryShards(current, fs)
      ensures present == RecoveryPresent(current, fs)
    {
      hide RecoverySize, Padded;
      var k, m := current.totalPackets, fs.parityShardCount;
      shards := new Vector[k + m](_ => []);
      var dataPresent := Place(shards, 0, current.packets, current.received, k, shardSize);
      var parityPresent := Place(shards, k, fs.parityShards, fs.parityPresent, m, shardSize);
      present := dataPresent + parityPresent;
      assert present == RecoveryPresent(current, fs);
      assert shards[..] == RecoveryShards(current, fs);
    }

    // Copies the present ones of the first n sources to the buffers from `start` on.
    static method Place(shards: array<Vector>, start: nat, sources: seq<Vector>, there: seq<bool>, n: nat, size: nat)
      returns (present: seq<bool>)
      requires n <= |sources| == |there| && start + n <= shards.Length
      requires forall l :: start <= l < shards.Length ==> shards[l] == []
      modifies shards
      ensures present == there[..n]
      ensures forall l :: 0 <= l < start || start + n <= l < shards.Length ==> shards[l] == old(shards[l])
      ensures forall l :: start <= l < start + n ==>
        shards[l] == if there[l - start] then Padded(sources[l - start], size) else []
    {
      hide Padded;
      present := seq(n, _ => false);
      for i := 0 to n
        invariant |present| == n
        invariant forall l :: 0 <= l < n ==> present[l] == (l < i && there[l])
        invariant forall l :: 0 <= l < start || start + i <= l < shards.Length ==> shards[l] == old(shards[l])
        invariant forall l :: start <= l < start + i ==>
          shards[l] == if there[l - start] then Padded(sources[l - start], size) else []
      {
        if there[i] {
          shards[start + i] := Padded(sources[i], size);
          present := present[i := true];
        }
      }
    }

    // Takes every missing packet from the decoded shards.
    method CopyBack(shards: array<Vector>)
      requires ValidPending(current) && shards.Length >= current.totalPackets
      modifies this`current
      ensures current == FillMissing(old(current), shards[..])
    {
      ghost var c := current;
      var k := current.totalPackets;
      for i := 0 to k
        invariant ValidPending(current) && current.totalPackets == k
        invariant current == c.(packets := current.packets, received := current.received,
                                receivedCount := current.receivedCount)
        invariant forall l :: 0 <= l < i ==>
          current.received[l] && current.packets[l] == if c.received[l] then c.packets[l] else shards[l]
        invariant forall l :: i <= l < k ==>
          current.received[l] == c.received[l] && current.packets[l] == c.packets[l]
      {
        if !current.received[i] {
          CountSet(current.received, i, k);
          current := current.(packets := current.packets[i := shards[i]], received := current.received[i := true],
                              receivedCount := current.receivedCount + 1);
        }
      }
      CountFull(current.received, k);
      var f := FillMissing(c, shards[..]);
      assert current.packets == f.packets && current.received == f.received;
    }
  }

  lemma {:induction false} RecoverNothing(st: State)
    requires ValidPending(st.current) && forall j :: 0 <= j < |st.slots| ==> ValidSlot(st.slots[j])
    requires FirstUsable(st.current, st.slots, 0) == |st.slots|
    ensures Recover(st) == st
  {}
}
