// The client's 64-frame receive window (client_session.cpp) and the loss rate
// that the host reads from it (host_session.cpp).
module FeedbackWindow {
  import opened Wrappers

  const WIDTH: nat := 64
  type u64 = x: nat | x < 0x1_0000_0000_0000_0000

  // ----- binary digits of naturals

  function Pow2(n: nat): (p: nat)
    ensures p > 0
  {
    if n == 0 then 1 else 2 * Pow2(n - 1)
  }

  function Bit(n: nat, i: nat): bool {
    if i == 0 then n % 2 == 1 else Bit(n / 2, i - 1)
  }

  lemma {:induction false} ZeroBits(i: nat)
    ensures !Bit(0, i)
  {
    if i > 0 { ZeroBits(i - 1); }
  }

  lemma {:induction false} Pow2Is64()
    ensures Pow2(64) == 0x1_0000_0000_0000_0000
  {
    assert Pow2(8) == 0x100;
    assert Pow2(16) == 0x1_0000 by { assert Pow2(12) == 0x1000; }
    assert Pow2(32) == 0x1_0000_0000 by { assert Pow2(24) == 0x100_0000; }
    assert Pow2(48) == 0x1_0000_0000_0000 by { assert Pow2(40) == 0x100_0000_0000; }
    assert Pow2(56) == 0x100_0000_0000_0000;
  }

  // Taking 2^w away leaves the w lowest bits.
  lemma {:induction false} LowBitsStay(n: nat, w: nat, i: nat)
    requires i < w && Pow2(w) <= n
    ensures Bit(n - Pow2(w), i) == Bit(n, i)
  {
    if i > 0 { LowBitsStay(n / 2, w - 1, i - 1); }
  }

  // ----- the window

  datatype Window = Window(bitmap: u64, last: u16)

  const EMPTY: Window := Window(0, 0)

  function Twice(bits: u64): u64 { 2 * bits % 0x1_0000_0000_0000_0000 }

  // bits << gap in 64 bits: gap doublings, each losing what reaches 2^64.
  function ShiftLeft(bits: u64, gap: nat): u64 {
    if gap == 0 then bits else Twice(ShiftLeft(bits, gap - 1))
  }

  lemma {:induction false} TwiceBits(bits: u64, i: nat)
    requires i < WIDTH
    ensures Bit(Twice(bits), i) == (i > 0 && Bit(bits, i - 1))
  {
    var all: nat := 2 * bits;
    assert Bit(all, i) == (i > 0 && Bit(bits, i - 1));
    if all >= 0x1_0000_0000_0000_0000 {
      Pow2Is64();
      LowBitsStay(all, 64, i);
    }
  }

  lemma {:induction false} ShiftedBits(bits: u64, gap: nat, i: nat)
    requires i < WIDTH
    ensures Bit(ShiftLeft(bits, gap), i) == (i >= gap && Bit(bits, i - gap))
  {
    hide Bit, Twice;
    if gap > 0 {
      TwiceBits(ShiftLeft(bits, gap - 1), i);
      if i > 0 { ShiftedBits(bits, gap - 1, i - 1); }
    }
  }

  lemma {:induction false} NoShift(bits: u64)
    ensures ShiftLeft(bits, 0) == bits
  {}

  // bits | 1
  function SetLowest(bits: u64): u64 {
    if bits % 2 == 1 then bits else bits + 1
  }

  function Gap(last: u16, frame: u32): u16 { (frame - last) % 0x1_0000 }

  function Record(w: Window, frame: u32): Window {
    var gap := Gap(w.last, frame);
    Window(SetLowest(if gap >= WIDTH then 0 else ShiftLeft(w.bitmap, gap)), frame % 0x1_0000)
  }

  lemma {:induction false} RecordedBits(w: Window, frame: u32, i: nat)
    requires i < WIDTH
    ensures Bit(Record(w, frame).bitmap, i) <==>
      i == 0 || (Gap(w.last, frame) <= i && Bit(w.bitmap, i - Gap(w.last, frame)))
  {
    var gap := Gap(w.last, frame);
    if gap >= WIDTH {
      ZeroBits(i);
      if i > 0 { ZeroBits(i - 1); }
    } else {
      ShiftedBits(w.bitmap, gap, i);
    }
  }

  lemma {:induction false} AllRecordedBits(w: Window, frame: u32, gap: u16)
    requires gap == Gap(w.last, frame)
    ensures forall i :: 0 <= i < WIDTH ==>
      (Bit(Record(w, frame).bitmap, i) <==> i == 0 || (gap <= i && Bit(w.bitmap, i - gap)))
  {
    hide Bit, Gap, Record;
    forall i: nat | i < WIDTH
      ensures Bit(Record(w, frame).bitmap, i) <==> i == 0 || (gap <= i && Bit(w.bitmap, i - gap))
    {
      RecordedBits(w, frame, i);
    }
  }

  class ReceiveWindow {
    var bitmap: u64
    var last: u16

    function State(): Window reads this { Window(bitmap, last) }

    constructor ()
      ensures State() == EMPTY
    {
      bitmap, last := 0, 0;
    }

    method OnFrameDecoded(frame: u32)
      modifies this
      ensures State() == Record(old(State()), frame)
      ensures forall i :: 0 <= i < WIDTH ==>
        (Bit(bitmap, i) <==> i == 0 || (old(Gap(last, frame)) <= i && old(Bit(bitmap, i - Gap(last, frame)))))
    {
      hide Bit, ShiftLeft, SetLowest, Gap;
      NoShift(bitmap);
      ghost var was := State();
      var gap := Gap(last, frame);
      if 0 < gap < WIDTH {
        bitmap := ShiftLeft(bitmap, gap);
      } else if gap >= WIDTH {
        bitmap := 0;
      }
      bitmap := SetLowest(bitmap);
      last := frame % 0x1_0000;
      assert State() == Record(was, frame);
      AllRecordedBits(was, frame, gap);
    }
  }

  // ----- what the window means

  // The last frame decoded; 0 before any.
  function Newest(frames: seq<nat>): nat {
    if frames == [] then 0 else frames[|frames| - 1]
  }

  // Whether the frame i before the last one decoded has been decoded too.
  predicate Decoded(frames: seq<nat>, i: nat) {
    i <= Newest(frames) && Newest(frames) - i in frames
  }

  // The window holds the last frame's number, and bit i says whether the frame i before it was decoded.
  ghost predicate Tracks(w: Window, frames: seq<nat>) {
    && w.last == Newest(frames) % 0x1_0000
    && forall i: nat :: i < WIDTH ==> (Bit(w.bitmap, i) <==> Decoded(frames, i))
  }

  // The window after these frames have been decoded; frame numbers travel in 16 bits.
  function RecordAll(frames: seq<nat>): Window {
    if frames == [] then EMPTY
    else Record(RecordAll(frames[..|frames| - 1]), frames[|frames| - 1] % 0x1_0000)
  }

  ghost predicate Ascending(frames: seq<nat>) {
    forall i, j :: 0 <= i <= j < |frames| ==> frames[i] <= frames[j]
  }

  // No frame is 2^16 or more beyond the one decoded before it, or, for the first, beyond frame 0.
  ghost predicate SmallJumps(frames: seq<nat>) {
    forall i :: 0 <= i < |frames| ==> frames[i] - Newest(frames[..i]) < 0x1_0000
  }

  lemma {:induction false} EmptyTracks()
    ensures Tracks(EMPTY, [])
  {
    forall i: nat | i < WIDTH ensures !Bit(0, i) { ZeroBits(i); }
  }

  lemma {:induction false} GapOfFrames(n: nat, f: nat)
    ensures Gap(n % 0x1_0000, f % 0x1_0000) == (f - n) % 0x1_0000
  {
    var gap := (f - n) % 0x1_0000;
    var back := (f % 0x1_0000 - n % 0x1_0000) % 0x1_0000;
    assert gap == back;
  }

  lemma {:induction false} NumbersAscend(frames: seq<nat>, f: nat)
    requires Ascending(frames + [f])
    ensures Newest(frames) <= f && Ascending(frames)
  {
    var all := frames + [f];
    if frames != [] { assert all[|frames| - 1] <= all[|frames|]; }
    assert forall i :: 0 <= i < |frames| ==> frames[i] == all[i];
  }

  lemma {:induction false} FirstBit(frames: seq<nat>)
    ensures frames != [] ==> Decoded(frames, 0)
    ensures frames == [] ==> forall i: nat :: !Decoded(frames, i)
  {
    if frames != [] { assert frames[|frames| - 1] in frames; }
  }

  lemma {:induction false} RecordedLast(w: Window, frame: u32)
    ensures Record(w, frame).last == frame % 0x1_0000
  {}

  // Bit i after the next frame f, against its meaning.
  lemma {:induction false} NextBit(w: Window, frames: seq<nat>, f: nat, i: nat)
    requires Tracks(w, frames) && Ascending(frames + [f]) && i < WIDTH
    ensures var n := Newest(frames); var gap := (f - n) % 0x1_0000;
      && (Bit(Record(w, f % 0x1_0000).bitmap, i) <==> i == 0 || (gap <= i && Bit(w.bitmap, i - gap)))
      && (Decoded(frames + [f], i) <==> i == 0 || (f - n <= i && Bit(w.bitmap, i - (f - n))))
  {
    hide Bit, Gap, Record;
    var n := Newest(frames);
    var all := frames + [f];
    GapOfFrames(n, f);
    RecordedBits(w, f % 0x1_0000, i);
    assert all[|frames|] == f;
    if i > 0 && i <= f && f - i in all {
      var j :| 0 <= j < |all| && all[j] == f - i;
      assert j < |frames| && all[j] == frames[j];
      assert all[|frames| - 1] == n && all[j] <= all[|frames| - 1];
      assert n - (i - (f - n)) in frames;
      assert Decoded(frames, i - (f - n));
    }
    if i > 0 && 0 <= f - n <= i && Decoded(frames, i - (f - n)) {
      assert f - i in frames;
    }
    NumbersAscend(frames, f);
  }

  // Of a window shifted by gap, only bit 0 can still be set.
  predicate Clear(w: Window, gap: nat) {
    forall i: nat :: i < WIDTH && Bit(w.bitmap, i) ==> i == 0 && gap == 0
  }

  // No frame in the window is misread as a recent one.
  predicate Survives(w: Window, ahead: nat) {
    ahead < 0x1_0000 || ahead % 0x1_0000 >= WIDTH || Clear(w, ahead % 0x1_0000)
  }

  // The window survives the next frame exactly when the frame is less than 2^16 ahead,
  // or nothing in the window remains to be misread as recent.
  lemma {:induction false} NextFrameIff(w: Window, frames: seq<nat>, f: nat)
    requires Tracks(w, frames) && Ascending(frames + [f])
    ensures f >= Newest(frames)
    ensures Tracks(Record(w, f % 0x1_0000), frames + [f]) <==> Survives(w, f - Newest(frames))
  {
    NumbersAscend(frames, f);
    if Survives(w, f - Newest(frames)) {
      NextFrameTracked(w, frames, f);
    } else {
      NextFrameMisread(w, frames, f);
    }
  }

  lemma {:induction false} NextFrameTracked(w: Window, frames: seq<nat>, f: nat)
    requires Tracks(w, frames) && Ascending(frames + [f]) && f >= Newest(frames) && Survives(w, f - Newest(frames))
    ensures Tracks(Record(w, f % 0x1_0000), frames + [f])
  {
    hide Bit, Gap, Record, Decoded;
    var next := Record(w, f % 0x1_0000);
    RecordedLast(w, f % 0x1_0000);
    assert Newest(frames + [f]) == f;
    forall i: nat | i < WIDTH ensures Bit(next.bitmap, i) <==> Decoded(frames + [f], i) {
      NextBit(w, frames, f, i);
    }
  }

  lemma {:induction false} NextFrameMisread(w: Window, frames: seq<nat>, f: nat)
    requires Tracks(w, frames) && Ascending(frames + [f]) && f >= Newest(frames) && !Survives(w, f - Newest(frames))
    ensures !Tracks(Record(w, f % 0x1_0000), frames + [f])
  {
    hide Bit, Gap, Record, Decoded, Ascending;
    var gap := (f - Newest(frames)) % 0x1_0000;
    FirstBit(frames);
    var i: nat :| i < WIDTH && Bit(w.bitmap, i) && (i > 0 || gap > 0);
    var j := if gap > 0 then gap else i;
    NextBit(w, frames, f, j);
    assert Bit(Record(w, f % 0x1_0000).bitmap, j) && !Decoded(frames + [f], j);
  }

  // In a stream of ascending frame numbers without such jumps, the window is the set of the
  // last 64 frames decoded, also where the 16-bit numbers wrap around.
  lemma {:induction false} WindowIsDecodedSet(frames: seq<nat>)
    requires Ascending(frames) && SmallJumps(frames)
    ensures Tracks(RecordAll(frames), frames)
  {
    if frames == [] {
      EmptyTracks();
    } else {
      var before, f := frames[..|frames| - 1], frames[|frames| - 1];
      assert frames == before + [f];
      assert forall i :: 0 <= i < |before| ==> before[..i] == frames[..i];
      NumbersAscend(before, f);
      WindowIsDecodedSet(before);
      NextFrameIff(RecordAll(before), before, f);
    }
  }

  // A frame decoded late, by any distance. Modulo 2^16 the distance reads as a jump ahead: a short one, which
  // shifts the window, when less than 64 short of a multiple of 2^16, and otherwise one that empties it. What the
  // window says is then right exactly when the bits it keeps are those of the frames decoded before the late one.
  lemma {:induction false} LateFrame(w: Window, frames: seq<nat>, f: nat)
    requires Tracks(w, frames) && f < Newest(frames)
    ensures var gap := (f - Newest(frames)) % 0x1_0000;
      Tracks(Record(w, f % 0x1_0000), frames + [f]) <==>
        forall i: nat :: 0 < i < WIDTH ==> (Decoded(frames + [f], i) <==> gap <= i && Decoded(frames, i - gap))
  {
    hide Bit, Gap, Record, Decoded;
    var next, gap := Record(w, f % 0x1_0000), (f - Newest(frames)) % 0x1_0000;
    RecordedLast(w, f % 0x1_0000);
    GapOfFrames(Newest(frames), f);
    FirstBit(frames + [f]);
    assert Newest(frames + [f]) == f;
    forall i: nat | i < WIDTH ensures Bit(next.bitmap, i) <==> i == 0 || (gap <= i && Decoded(frames, i - gap)) {
      RecordedBits(w, f % 0x1_0000, i);
    }
  }

  // Late by at most 65472 frames, it empties the window: that is right exactly when none of the 63 frames before
  // the late one had been decoded.
  lemma {:induction false} LateFrameEmpties(w: Window, frames: seq<nat>, f: nat)
    requires Tracks(w, frames) && f < Newest(frames) <= f + 0x1_0000 - WIDTH
    ensures Tracks(Record(w, f % 0x1_0000), frames + [f]) <==>
      forall i: nat :: 0 < i < WIDTH ==> !Decoded(frames + [f], i)
  {
    hide Decoded, Record;
    LateFrame(w, frames, f);
    assert (f - Newest(frames)) % 0x1_0000 >= WIDTH;
  }

  // ----- windows that go wrong

  lemma {:induction false} RecordOneMore(frames: seq<nat>, f: nat)
    ensures RecordAll(frames + [f]) == Record(RecordAll(frames), f % 0x1_0000)
  {
    assert (frames + [f])[..|frames|] == frames;
  }

  // After any such stream, a jump of 2^16 to 2^16 + 63 frames, or of a multiple of 2^16 more, leaves a window that
  // claims frames decoded that were not.
  lemma {:induction false} JumpMisleads(frames: seq<nat>, f: nat)
    requires frames != [] && Ascending(frames + [f]) && SmallJumps(frames)
    requires f - Newest(frames) >= 0x1_0000 && 0 < (f - Newest(frames)) % 0x1_0000 < WIDTH
    ensures !Tracks(RecordAll(frames + [f]), frames + [f])
    ensures var gap := (f - Newest(frames)) % 0x1_0000;
      Bit(RecordAll(frames + [f]).bitmap, gap) && !Decoded(frames + [f], gap)
  {
    hide Bit, Gap, Record, Decoded;
    var gap := (f - Newest(frames)) % 0x1_0000;
    NumbersAscend(frames, f);
    WindowIsDecodedSet(frames);
    RecordOneMore(frames, f);
    FirstBit(frames);
    NextBit(RecordAll(frames), frames, f, gap);
  }

  // And a late frame leaves one that denies every frame decoded shortly before it.
  lemma {:induction false} LateFrameMisleads(frames: seq<nat>, f: nat, i: nat)
    requires Ascending(frames) && SmallJumps(frames) && f < Newest(frames) <= f + 0x1_0000 - WIDTH
    requires 0 < i < WIDTH && Decoded(frames + [f], i)
    ensures !Tracks(RecordAll(frames + [f]), frames + [f])
  {
    hide Record, Decoded;
    WindowIsDecodedSet(frames);
    RecordOneMore(frames, f);
    LateFrameEmpties(RecordAll(frames), frames, f);
  }

  lemma {:induction false} MisleadingStreams()
    ensures !Tracks(RecordAll([1, 65538]), [1, 65538])
    ensures !Tracks(RecordAll([1, 3, 2]), [1, 3, 2])
  {
    assert [1] + [65538] == [1, 65538] && [1, 3] + [2] == [1, 3, 2];
    assert Newest([1][..0]) == 0 && Newest([1, 3][..0]) == 0 && [1, 3][..1] == [1];
    JumpMisleads([1], 65538);
    assert 1 in [1, 3] + [2];
    LateFrameMisleads([1, 3], 2, 1);
  }

  // ----- the loss rate

  function Positions(bits: nat, n: nat): set<nat> {
    set i: nat | i < n && Bit(bits, i)
  }

  function Ones(bits: nat): nat {
    if bits == 0 then 0 else bits % 2 + Ones(bits / 2)
  }

  function Shifted(s: set<nat>): set<nat> {
    set i: nat | i in s :: i + 1
  }

  lemma {:induction false} ShiftedSize(s: set<nat>)
    ensures |Shifted(s)| == |s|
  {
    if s != {} {
      var x :| x in s;
      ShiftedSize(s - {x});
      var rest := s - {x};
      forall y: nat ensures y in Shifted(s) <==> y in Shifted(rest) || y == x + 1 {
        if y in Shifted(s) && y != x + 1 {
          var i: nat :| i in s && y == i + 1;
          assert i in rest;
        }
      }
      assert Shifted(s) == Shifted(rest) + {x + 1};
    }
  }

  lemma {:induction false} PositionsSplit(bits: nat, n: nat)
    requires n > 0
    ensures Positions(bits, n) == (if bits % 2 == 1 then {0} else {}) + Shifted(Positions(bits / 2, n - 1))
  {
    var rest := Shifted(Positions(bits / 2, n - 1));
    forall i: nat ensures i in rest <==> 0 < i < n && Bit(bits, i) {
      if 0 < i < n && Bit(bits, i) { assert i - 1 in Positions(bits / 2, n - 1); }
    }
  }

  lemma {:induction false} OnesCountPositions(bits: nat, n: nat)
    requires bits < Pow2(n)
    ensures Ones(bits) == |Positions(bits, n)|
  {
    if n == 0 {
      assert Positions(bits, 0) == {};
    } else {
      hide Positions;
      OnesCountPositions(bits / 2, n - 1);
      PositionsSplit(bits, n);
      ShiftedSize(Positions(bits / 2, n - 1));
      assert 0 !in Shifted(Positions(bits / 2, n - 1));
    }
  }

  // The host counts the bits of the window one by one.
  method CountOnes(bits: u64) returns (n: nat)
    ensures n == |Positions(bits, WIDTH)|
  {
    var rest: nat := bits;
    n := 0;
    while rest > 0
      invariant n + Ones(rest) == Ones(bits)
    {
      n := n + rest % 2;
      rest := rest / 2;
    }
    Pow2Is64();
    OnesCountPositions(bits, WIDTH);
  }

  function LossRate(bits: u64): real {
    1.0 - |Positions(bits, WIDTH)| as real / 64.0
  }

  // Which of the last 64 frame numbers, counted back from the newest, were not decoded.
  ghost function Missing(frames: seq<nat>): set<nat> {
    set i: nat | i < WIDTH && !Decoded(frames, i)
  }

  lemma {:induction false} LossRateCountsMissing(frames: seq<nat>)
    requires Ascending(frames) && SmallJumps(frames)
    ensures LossRate(RecordAll(frames).bitmap) * 64.0 == |Missing(frames)| as real
    ensures 0.0 <= LossRate(RecordAll(frames).bitmap) <= 1.0
  {
    hide Bit, Decoded;
    WindowIsDecodedSet(frames);
    var present := Positions(RecordAll(frames).bitmap, WIDTH);
    UpToSize(WIDTH);
    assert present + Missing(frames) == UpTo(WIDTH);
    assert present !! Missing(frames);
  }

  function UpTo(n: nat): set<nat> {
    if n == 0 then {} else UpTo(n - 1) + {n - 1}
  }

  lemma {:induction false} UpToSize(n: nat)
    ensures |UpTo(n)| == n && forall i: nat :: i in UpTo(n) <==> i < n
  {
    if n > 0 { UpToSize(n - 1); }
  }
}
