// What the host's feedback loop does over whole runs of reports.
module HostRuns {
  import opened FeedbackWindow
  import opened CongestionControl
  import opened HostFeedback
  import Rates = RateRuns

  // A report and the two clock readings that go with it.
  datatype Beat = Beat(report: Report, now: int, later: int)

  function ReactAll(c: Controller, beats: seq<Beat>): Controller
    decreases |beats|
  {
    if beats == [] then c
    else ReactAll(React(c, beats[0].report, beats[0].now, beats[0].later), beats[1..])
  }

  function EventsOfAll(beats: seq<Beat>): seq<Rates.Event> {
    if beats == [] then [] else EventsOf(beats[0].report, beats[0].now) + EventsOfAll(beats[1..])
  }

  // The decisions that a run of reports leads to.
  function DecisionsOf(c: Controller, beats: seq<Beat>): seq<Rates.Decision> {
    Rates.Decisions(c.estimator, EventsOfAll(beats))
  }

  // ----- what every run keeps

  ghost predicate Steady(c: Controller) {
    && c.estimator.config == DEFAULTS && Rates.Healthy(c.estimator) && Rates.InRange(c.estimator)
    && c.estimator.gradient == 0.0 && Rates.NoSpacing(c.estimator.samples)
    && c.measuredLoss == c.estimator.loss
    && 0.05 <= c.fecRatio <= 0.4
  }

  lemma {:induction false} LossRateInRange(bits: u64)
    ensures 0.0 <= LossRate(bits) <= 1.0
  {
    UpToSize(WIDTH);
    SubsetIsSmaller(Positions(bits, WIDTH), UpTo(WIDTH));
  }

  lemma {:induction false} SubsetIsSmaller(a: set<nat>, b: set<nat>)
    requires a <= b
    ensures |a| <= |b|
  {
    assert b == a + (b - a);
  }

  lemma {:induction false} StartsSteady()
    ensures Steady(STARTED)
  {}

  lemma {:induction false} EventsAreFine(r: Report, now: int)
    ensures Rates.WellFed(EventsOf(r, now))
    ensures forall i :: 0 <= i < |EventsOf(r, now)| ==> Rates.SendTimesStill(EventsOf(r, now)[i])
  {
    LossRateInRange(r.lossMap);
    hide LossRate;
  }

  lemma {:induction false} LossOfReaction(e: Estimator, r: Report, now: int)
    ensures Rates.Run(e, EventsOf(r, now)).loss == Smooth(e.loss, LossRate(r.lossMap))
  {
    hide Smooth, LossRate, Wanted;
    ReportSteps(e, r, now);
  }

  lemma {:induction false} FecStaysInRange(ratio: real, loss: real)
    requires 0.05 <= ratio <= 0.4
    ensures 0.05 <= Adjusted(ratio, loss) <= 0.4
  {}

  lemma {:induction false} StaysSteady(c: Controller, r: Report, now: int, later: int)
    requires Steady(c)
    ensures Steady(React(c, r, now, later))
  {
    hide Rates.NoSpacing, Rates.WellFed, Rates.SendTimesStill, Rates.Healthy, Rates.Orderly, Rates.Run, EventsOf,
      Smooth, LossRate, Adjusted;
    var events := EventsOf(r, now);
    EventsAreFine(r, now);
    Rates.EveryRun(c.estimator, events);
    Rates.StillRuns(c.estimator, events);
    LossOfReaction(c.estimator, r, now);
    FecStaysInRange(c.fecRatio, Smooth(c.measuredLoss, LossRate(r.lossMap)));
    KeepsRange(c.estimator, r, now);
  }

  lemma {:induction false} KeepsRange(e: Estimator, r: Report, now: int)
    requires e.config.minRate <= e.config.maxRate && Rates.InRange(e)
    ensures Rates.InRange(Rates.Run(e, EventsOf(r, now)))
  {
    hide Wanted, LossRate, Smooth;
    ReportSteps(e, r, now);
  }

  // In every run from the start the rate lies between 2000 and 80000 kbit/s, the parity ratio
  // between 5% and 40%, and the delay gradient, fed no send times, never moves.
  lemma {:induction false} EveryRunIsSteady(c: Controller, beats: seq<Beat>)
    requires Steady(c)
    ensures Steady(ReactAll(c, beats))
    decreases |beats|
  {
    hide Steady, React;
    if beats != [] {
      var b := beats[0];
      StaysSteady(c, b.report, b.now, b.later);
      EveryRunIsSteady(React(c, b.report, b.now, b.later), beats[1..]);
    }
  }

  // So does every run of a session.
  lemma {:induction false} SessionIsSteady(beats: seq<Beat>)
    ensures Steady(ReactAll(STARTED, beats))
  {
    hide Steady;
    StartsSteady();
    EveryRunIsSteady(STARTED, beats);
  }

  lemma {:induction false} RunOfEvents(c: Controller, beats: seq<Beat>)
    ensures ReactAll(c, beats).estimator == Rates.Run(c.estimator, EventsOfAll(beats))
    decreases |beats|
  {
    hide EventsOf;
    if beats != [] {
      var b := beats[0];
      RunOfEvents(React(c, b.report, b.now, b.later), beats[1..]);
      Rates.Append(c.estimator, EventsOf(b.report, b.now), EventsOfAll(beats[1..]), Rates.Overused);
    }
  }

  // ----- persistent loss, and next to none

  // Every report misses at least, or at most, n of 64 frames.
  predicate LossAtLeast(beats: seq<Beat>, n: nat) {
    forall i :: 0 <= i < |beats| ==> LossRate(beats[i].report.lossMap) * 64.0 >= n as real
  }

  predicate LossAtMost(beats: seq<Beat>, n: nat) {
    forall i :: 0 <= i < |beats| ==> LossRate(beats[i].report.lossMap) * 64.0 <= n as real
  }

  predicate ReportsAtLeast(beats: seq<Beat>, rate: real) {
    forall i :: 0 <= i < |beats| ==> LossRate(beats[i].report.lossMap) >= rate
  }

  predicate ReportsAtMost(beats: seq<Beat>, rate: real) {
    forall i :: 0 <= i < |beats| ==> LossRate(beats[i].report.lossMap) <= rate
  }

  // How far smoothed loss can still be from the rate reported n times.
  lemma {:induction false} LossApproaches(c: Controller, beats: seq<Beat>, rate: real, off: real)
    requires off >= 0.0
    ensures c.estimator.loss >= rate - off && ReportsAtLeast(beats, rate) ==>
      ReactAll(c, beats).estimator.loss >= rate - Rates.Decay(off, 0.7, |beats|)
    ensures c.estimator.loss <= rate + off && ReportsAtMost(beats, rate) ==>
      ReactAll(c, beats).estimator.loss <= rate + Rates.Decay(off, 0.7, |beats|)
    decreases |beats|
  {
    hide Rates.Decay, LossRate, EventsOf;
    Rates.NoDecay(off, 0.7);
    if beats != [] {
      var b := beats[0];
      LossOfReaction(c.estimator, b.report, b.now);
      LossApproaches(React(c, b.report, b.now, b.later), beats[1..], rate, Product(off, 0.7));
      Rates.DecayFirst(off, 0.7, |beats|);
    }
  }

  // A report's decision is taken with its loss already taken in.
  lemma {:induction false} AtReport(e: Estimator, r: Report, now: int, condition: Estimator -> bool)
    requires condition(Heard(e, r))
    ensures Rates.AtDecisions(e, EventsOf(r, now), condition)
  {
    hide LossRate, Smooth, Feedback, Decide, Due;
    var events := EventsOf(r, now);
    var heard := e.(loss := Smooth(e.loss, LossRate(r.lossMap)));
    assert Rates.Apply(e, events[0]) == heard;
    if 0 < r.twccCount <= |r.deltas| {
      assert events[1..] == [Rates.Delays(Unsent(r.deltas[..r.twccCount])), Rates.Tick(now)];
      assert events[1..][1..] == [Rates.Tick(now)];
      AtTick(Heard(e, r), now, condition);
    } else {
      assert events[1..] == [Rates.Tick(now)];
      AtTick(heard, now, condition);
    }
  }

  lemma {:induction false} AtTick(e: Estimator, now: int, condition: Estimator -> bool)
    requires condition(e)
    ensures Rates.AtDecisions(e, [Rates.Tick(now)], condition)
  {}

  lemma {:induction false} HeardLoss(e: Estimator, r: Report)
    ensures Heard(e, r).loss == Smooth(e.loss, LossRate(r.lossMap))
  {}

  lemma {:induction false} StaysLossy(c: Controller, beats: seq<Beat>)
    requires c.estimator.loss >= 0.045 && LossAtLeast(beats, 4)
    ensures Rates.AtDecisions(c.estimator, EventsOfAll(beats), Rates.Overused)
    decreases |beats|
  {
    hide EventsOf, Heard, LossRate;
    if beats != [] {
      var b := beats[0];
      HeardLoss(c.estimator, b.report);
      AtReport(c.estimator, b.report, b.now, Rates.Overused);
      LossOfReaction(c.estimator, b.report, b.now);
      StaysLossy(React(c, b.report, b.now, b.later), beats[1..]);
      Rates.Append(c.estimator, EventsOf(b.report, b.now), EventsOfAll(beats[1..]), Rates.Overused);
    }
  }

  lemma {:induction false} StaysLow(c: Controller, beats: seq<Beat>)
    requires c.estimator.loss <= 0.0513 && LossAtMost(beats, 3)
    ensures Rates.AtDecisions(c.estimator, EventsOfAll(beats), Rates.LowLoss)
    decreases |beats|
  {
    hide EventsOf, Heard, LossRate;
    if beats != [] {
      var b := beats[0];
      HeardLoss(c.estimator, b.report);
      AtReport(c.estimator, b.report, b.now, Rates.LowLoss);
      LossOfReaction(c.estimator, b.report, b.now);
      StaysLow(React(c, b.report, b.now, b.later), beats[1..]);
      Rates.Append(c.estimator, EventsOf(b.report, b.now), EventsOfAll(beats[1..]), Rates.LowLoss);
    }
  }

  // n factors at once.
  lemma {:induction false} FourDecays(b: real, factor: real, n: nat)
    ensures Rates.Decay(b, factor, n + 4) == Rates.Decay(b, factor, n) * factor * factor * factor * factor
  {
    assert Rates.Decay(b, factor, n + 2) == Rates.Decay(b, factor, n) * factor * factor;
  }

  lemma {:induction false} SixteenSmoothings(off: real)
    requires 0.0 <= off <= 0.953125
    ensures Rates.Decay(off, 0.7, 16) <= 0.0513 - 0.046875
  {
    hide Rates.Decay;
    Rates.NoDecay(off, 0.7);
    FourDecays(off, 0.7, 0);
    FourDecays(off, 0.7, 4);
    FourDecays(off, 0.7, 8);
    FourDecays(off, 0.7, 12);
  }

  lemma {:induction false} TwentyThreeDecreases(b: real)
    requires 0.0 <= b <= 80000.0
    ensures Rates.Decay(b, 0.85, 23) <= 2000.0
  {
    hide Rates.Decay;
    Rates.NoDecay(b, 0.85);
    ThreeDecays(b, 0.85);
    FourDecays(b, 0.85, 3);
    FourDecays(b, 0.85, 7);
    FourDecays(b, 0.85, 11);
    FourDecays(b, 0.85, 15);
    FourDecays(b, 0.85, 19);
  }

  lemma {:induction false} ThreeDecays(b: real, factor: real)
    ensures Rates.Decay(b, factor, 3) == b * factor * factor * factor
  {
    assert Rates.Decay(b, factor, 1) == b * factor;
  }

  function After(c: Controller, beats: seq<Beat>, n: nat): Controller
    requires n <= |beats|
  {
    ReactAll(c, beats[..n])
  }

  lemma {:induction false} ReactAllAppend(c: Controller, a: seq<Beat>, b: seq<Beat>)
    ensures ReactAll(c, a + b) == ReactAll(ReactAll(c, a), b)
    decreases |a|
  {
    hide React;
    if a == [] {
      assert a + b == b;
    } else {
      assert (a + b)[1..] == a[1..] + b;
      ReactAllAppend(React(c, a[0].report, a[0].now, a[0].later), a[1..], b);
    }
  }

  // When every report misses four of 64 frames or more, the 23rd decision after the fourth
  // report, at the latest, brings the rate to 2000 kbit/s, where it stays.
  lemma {:induction false} PersistentLoss(c: Controller, beats: seq<Beat>)
    requires Steady(c) && LossAtLeast(beats, 4) && |beats| >= 4
    requires |DecisionsOf(After(c, beats, 4), beats[4..])| >= 23
    ensures ReactAll(c, beats).estimator.bitrate == 2000
  {
    hide React, EventsOf, LossRate, Rates.Decay, Rates.AtDecisions, Rates.Decisions, Rates.Run;
    var warm, rest := beats[..4], beats[4..];
    var warmed := After(c, beats, 4);
    assert beats == warm + rest;
    ReactAllAppend(c, warm, rest);
    EveryRunIsSteady(c, warm);
    FourDecays(0.0625, 0.7, 0);
    Rates.NoDecay(0.0625, 0.7);
    LossApproaches(c, warm, 0.0625, 0.0625);
    StaysLossy(warmed, rest);
    RunOfEvents(warmed, rest);
    TwentyThreeDecreases(warmed.estimator.bitrate as real);
    Rates.DefaultsAreSane();
    Rates.OveruseReachesMinimum(warmed.estimator, EventsOfAll(rest), 23);
  }

  // When every report misses three of 64 frames or fewer, every decision after the 16th report
  // adds 200 kbit/s, up to 80000.
  lemma {:induction false} LittleLoss(c: Controller, beats: seq<Beat>)
    requires Steady(c) && LossAtMost(beats, 3) && |beats| >= 16
    ensures var warmed := After(c, beats, 16);
      ReactAll(c, beats).estimator.bitrate
      == Rates.Lesser(80000, warmed.estimator.bitrate + 200 * |DecisionsOf(warmed, beats[16..])|)
  {
    hide React, EventsOf, LossRate, Rates.Decay, Rates.AtDecisions, Rates.Decisions, Rates.Run;
    var warm, rest := beats[..16], beats[16..];
    var warmed := After(c, beats, 16);
    assert beats == warm + rest;
    ReactAllAppend(c, warm, rest);
    EveryRunIsSteady(c, warm);
    SixteenSmoothings(0.953125);
    LossApproaches(c, warm, 0.046875, 0.953125);
    StaysLow(warmed, rest);
    RunOfEvents(warmed, rest);
    Rates.DefaultsAreSane();
    EventsOfAllAreStill(rest);
    Rates.LowLossRaises(warmed.estimator, EventsOfAll(rest));
  }

  lemma {:induction false} EventsOfAllAreStill(beats: seq<Beat>)
    ensures forall i :: 0 <= i < |EventsOfAll(beats)| ==> Rates.SendTimesStill(EventsOfAll(beats)[i])
  {
    hide EventsOf, Rates.SendTimesStill;
    if beats != [] {
      EventsAreFine(beats[0].report, beats[0].now);
      EventsOfAllAreStill(beats[1..]);
    }
  }

  // The reports are the windows of a client that has decoded these frames by then.
  ghost predicate ReportedBy(beats: seq<Beat>, decoded: seq<seq<nat>>) {
    |decoded| == |beats| &&
    forall i :: 0 <= i < |beats| ==>
      Ascending(decoded[i]) && SmallJumps(decoded[i]) && beats[i].report.lossMap == RecordAll(decoded[i]).bitmap
  }

  // From the decoded frames to the bitrate: four missing frames in 64 bring it to the least
  // rate, three let it rise.
  lemma {:induction false} MissingFramesSetTheRate(c: Controller, beats: seq<Beat>, decoded: seq<seq<nat>>)
    requires Steady(c) && ReportedBy(beats, decoded) && |beats| >= 16
    ensures (forall i :: 0 <= i < |decoded| ==> |Missing(decoded[i])| >= 4) ==>
      |DecisionsOf(After(c, beats, 4), beats[4..])| >= 23 ==>
        ReactAll(c, beats).estimator.bitrate == 2000
    ensures (forall i :: 0 <= i < |decoded| ==> |Missing(decoded[i])| <= 3) ==>
      ReactAll(c, beats).estimator.bitrate == Rates.Lesser(80000,
            After(c, beats, 16).estimator.bitrate + 200 * |DecisionsOf(After(c, beats, 16), beats[16..])|)
  {
    hide Steady, ReactAll, DecisionsOf, After, LossRate, Missing, Ascending, SmallJumps, RecordAll;
    forall i | 0 <= i < |beats|
      ensures LossRate(beats[i].report.lossMap) * 64.0 == |Missing(decoded[i])| as real
    {
      LossRateCountsMissing(decoded[i]);
    }
    if forall i :: 0 <= i < |decoded| ==> |Missing(decoded[i])| >= 4 {
      if |DecisionsOf(After(c, beats, 4), beats[4..])| >= 23 { PersistentLoss(c, beats); }
    }
    if forall i :: 0 <= i < |decoded| ==> |Missing(decoded[i])| <= 3 { LittleLoss(c, beats); }
  }

  // ----- parity ratio

  function AdjustAll(ratio: real, losses: seq<real>): real {
    if losses == [] then ratio else Adjusted(AdjustAll(ratio, losses[..|losses| - 1]), losses[|losses| - 1])
  }

  lemma {:induction false} RatioConvergesTo(ratio: real, losses: seq<real>, target: real)
    requires forall i :: 0 <= i < |losses| ==> Target(losses[i]) == target
    ensures AdjustAll(ratio, losses) - target == Rates.Decay(ratio - target, 0.8, |losses|)
  {
    hide Target;
    if losses != [] { RatioConvergesTo(ratio, losses[..|losses| - 1], target); }
  }

  // n adjustments shrink the distance to 1.5 times a constant loss, or to the end of the range that the losses
  // lie beyond, by exactly 0.8^n.
  lemma {:induction false} RatioConverges(ratio: real, losses: seq<real>, loss: real)
    ensures 0.05 <= 1.5 * loss <= 0.4 && (forall i :: 0 <= i < |losses| ==> losses[i] == loss) ==>
      AdjustAll(ratio, losses) - 1.5 * loss == Rates.Decay(ratio - 1.5 * loss, 0.8, |losses|)
    ensures (forall i :: 0 <= i < |losses| ==> 1.5 * losses[i] <= 0.05) ==>
      AdjustAll(ratio, losses) - 0.05 == Rates.Decay(ratio - 0.05, 0.8, |losses|)
    ensures (forall i :: 0 <= i < |losses| ==> 1.5 * losses[i] >= 0.4) ==>
      AdjustAll(ratio, losses) - 0.4 == Rates.Decay(ratio - 0.4, 0.8, |losses|)
  {
    hide Rates.Decay, AdjustAll;
    if 0.05 <= 1.5 * loss <= 0.4 && forall i :: 0 <= i < |losses| ==> losses[i] == loss {
      RatioConvergesTo(ratio, losses, 1.5 * loss);
    }
    if forall i :: 0 <= i < |losses| ==> 1.5 * losses[i] <= 0.05 { RatioConvergesTo(ratio, losses, 0.05); }
    if forall i :: 0 <= i < |losses| ==> 1.5 * losses[i] >= 0.4 { RatioConvergesTo(ratio, losses, 0.4); }
  }

  // ----- one report, in numbers

  // Both averages of the loss go three tenths of the way to the reported rate.
  lemma {:induction false} LossMoves(c: Controller, r: Report, now: int, later: int)
    ensures var next, rate := React(c, r, now, later), LossRate(r.lossMap);
      && next.measuredLoss - rate == 0.7 * (c.measuredLoss - rate)
      && next.estimator.loss - rate == 0.7 * (c.estimator.loss - rate)
  {
    hide LossRate, EventsOf, Rates.Run, Adjusted;
    LossOfReaction(c.estimator, r, now);
  }

  // The clock decides whether the parity ratio is adjusted, from the loss just taken in.
  lemma {:induction false} RatioWaits(c: Controller, r: Report, now: int, later: int)
    ensures var next := React(c, r, now, later);
      if later - c.lastAdjust <= 500000 then next.fecRatio == c.fecRatio && next.lastAdjust == c.lastAdjust
      else next.fecRatio == Adjusted(c.fecRatio, next.measuredLoss) && next.lastAdjust == later
  {
    hide LossRate, EventsOf, Rates.Run, Adjusted;
  }

  // The arrival deltas reach the controller's window, a quarter of a millisecond each, exactly when as many
  // came as were announced; the first only dates the second. Read at one place j of the window.
  lemma {:induction false} DeltasReachWindow(c: Controller, r: Report, now: int, later: int, j: nat)
    ensures var samples, next := c.estimator.samples, React(c, r, now, later).estimator.samples;
      var n := if 2 <= r.twccCount <= |r.deltas| then r.twccCount - 1 else 0;
      var d := if n > 0 && |samples| + n > 50 then |samples| + n - 50 else 0;
      && |next| == |samples| + n - d
      && (j < |next| && j + d < |samples| ==> next[j] == samples[j + d])
      && (j < |next| && j + d >= |samples| ==> next[j] == Sample(0, 250 * r.deltas[j + d - |samples| + 1]))
  {
    hide LossRate, Rates.Run, Adjusted, Smooth, Feedback, EventsOf, Wanted;
    ReportSteps(c.estimator, r, now);
    if 2 <= r.twccCount <= |r.deltas| {
      var e := c.estimator.(loss := Smooth(c.estimator.loss, LossRate(r.lossMap)));
      Rates.NewestFifty(e, Unsent(r.deltas[..r.twccCount]), j);
    } else {
      ShortReport(c.estimator, r);
    }
  }

  lemma {:induction false} ShortReport(e: Estimator, r: Report)
    requires !(2 <= r.twccCount <= |r.deltas|)
    ensures Heard(e, r).samples == e.samples
  {}

  // The decision of a report in a session, by the time since the last one and the loss just taken in.
  lemma {:induction false} ReportDecides(c: Controller, r: Report, now: int, later: int)
    requires Steady(c)
    ensures var b, last, next := c.estimator.bitrate, c.estimator.lastDecision, React(c, r, now, later).estimator;
      if now - last < 200000 then next.bitrate == b && next.lastDecision == last
      else
        next.lastDecision == now && next.bitrate ==
          if next.loss > 0.15 then Rates.Greater(2000, 90 * (85 * b / 100) / 100)
          else if next.loss > 0.05 then Rates.Greater(2000, 85 * b / 100)
          else Rates.Lesser(80000, b + 200)
  {
    ReportSteps(c.estimator, r, now);
    HeardInSession(c, r);
    hide Steady, Rates.Run, EventsOf, LossRate, Smooth, Adjusted, Heard, Decide;
    DecideInSession(Heard(c.estimator, r), now);
  }

  lemma {:induction false} HeardInSession(c: Controller, r: Report)
    requires Steady(c)
    ensures var heard := Heard(c.estimator, r);
      && heard.config == UNUSED.config && 2000 <= heard.bitrate <= 80000 && heard.gradient == 0.0
      && heard.bitrate == c.estimator.bitrate && heard.lastDecision == c.estimator.lastDecision
  {
    hide LossRate, Smooth, Mean;
    var e := c.estimator.(loss := Smooth(c.estimator.loss, LossRate(r.lossMap)));
    if 0 < r.twccCount <= |r.deltas| { Rates.StillEvent(e, Rates.Delays(Unsent(r.deltas[..r.twccCount]))); }
  }

  lemma {:induction false} DecideInSession(e: Estimator, now: int)
    requires e.config == UNUSED.config && 2000 <= e.bitrate <= 80000 && e.gradient == 0.0
    ensures var b, next := e.bitrate, Decide(e, now);
      if now - e.lastDecision < 200000 then next == e
      else
        next.loss == e.loss && next.lastDecision == now && next.bitrate ==
          if e.loss > 0.15 then Rates.Greater(2000, 90 * (85 * b / 100) / 100)
          else if e.loss > 0.05 then Rates.Greater(2000, 85 * b / 100)
          else Rates.Lesser(80000, b + 200)
  {
    if Due(e, now) {
      hide Decide;
      Rates.DefaultDecision(e, now);
    }
  }

  // A first report that misses four of 64 frames is taken for no overuse yet.
  lemma {:induction false} FirstReport(r: Report, now: int, later: int)
    requires LossRate(r.lossMap) == 0.0625
    ensures var next := React(STARTED, r, now, later);
      && next.measuredLoss == 0.01875
      && next.estimator.bitrate == (if now >= 200000 then 20200 else 20000)
      && next.fecRatio == if later > 500000 then 0.09 else 0.1
  {
    StartsSteady();
    LossMoves(STARTED, r, now, later);
    ReportDecides(STARTED, r, now, later);
    RatioWaits(STARTED, r, now, later);
    RatioMoves(0.1, 0.01875);
    hide React, LossRate, Steady, Adjusted;
  }

  // ----- whole runs, in numbers

  // n reports of one rate shrink the distance of both averages to it by exactly 0.7^n.
  lemma {:induction false} LossConverges(c: Controller, beats: seq<Beat>, rate: real)
    requires ReportsAtLeast(beats, rate) && ReportsAtMost(beats, rate)
    ensures var end := ReactAll(c, beats);
      && end.measuredLoss - rate == Rates.Decay(c.measuredLoss - rate, 0.7, |beats|)
      && end.estimator.loss - rate == Rates.Decay(c.estimator.loss - rate, 0.7, |beats|)
    decreases |beats|
  {
    hide Rates.Decay, LossRate, React;
    Rates.NoDecay(c.measuredLoss - rate, 0.7);
    Rates.NoDecay(c.estimator.loss - rate, 0.7);
    if beats != [] {
      var b := beats[0];
      LossMoves(c, b.report, b.now, b.later);
      LossConverges(React(c, b.report, b.now, b.later), beats[1..], rate);
      Rates.DecayFirst(c.measuredLoss - rate, 0.7, |beats|);
      Rates.DecayFirst(c.estimator.loss - rate, 0.7, |beats|);
    }
  }

  // The clock readings more than half a second after the last one taken.
  function HalfSeconds(last: int, beats: seq<Beat>): seq<int>
    decreases |beats|
  {
    if beats == [] then []
    else if beats[0].later - last > 500000 then [beats[0].later] + HalfSeconds(beats[0].later, beats[1..])
    else HalfSeconds(last, beats[1..])
  }

  // Any two of them are more than half a second apart, and all from the start.
  lemma {:induction false} HalfSecondsApart(last: int, beats: seq<Beat>, i: nat, j: nat)
    requires i <= j < |HalfSeconds(last, beats)|
    ensures var times := HalfSeconds(last, beats);
      times[j] - last > 500000 && (i < j ==> times[j] - times[i] > 500000)
    decreases |beats|
  {
    if beats[0].later - last <= 500000 {
      HalfSecondsApart(last, beats[1..], i, j);
    } else if j > 0 {
      HalfSecondsApart(beats[0].later, beats[1..], if i > 0 then i - 1 else 0, j - 1);
    }
  }

  // The last adjustment of a run is the last of those readings.
  lemma {:induction false} AdjustmentsOfRun(c: Controller, beats: seq<Beat>)
    ensures var times := HalfSeconds(c.lastAdjust, beats);
      ReactAll(c, beats).lastAdjust == if times == [] then c.lastAdjust else times[|times| - 1]
    decreases |beats|
  {
    hide React;
    if beats != [] {
      var b := beats[0];
      RatioWaits(c, b.report, b.now, b.later);
      AdjustmentsOfRun(React(c, b.report, b.now, b.later), beats[1..]);
    }
  }

  // A run whose losses all have one target goes there by 0.8 for each adjustment.
  lemma {:induction false} RunGoesTo(c: Controller, beats: seq<Beat>, low: real, high: real, target: real)
    requires low <= c.measuredLoss <= high && ReportsAtLeast(beats, low) && ReportsAtMost(beats, high)
    requires forall loss: real :: low <= loss <= high ==> Target(loss) == target
    ensures ReactAll(c, beats).fecRatio - target
      == Rates.Decay(c.fecRatio - target, 0.8, |HalfSeconds(c.lastAdjust, beats)|)
    decreases |beats|
  {
    hide Rates.Decay, LossRate, React, Target;
    Rates.NoDecay(c.fecRatio - target, 0.8);
    if beats != [] {
      var b := beats[0];
      var next := React(c, b.report, b.now, b.later);
      LossMoves(c, b.report, b.now, b.later);
      RatioWaits(c, b.report, b.now, b.later);
      assert Target(next.measuredLoss) == target;
      RunGoesTo(next, beats[1..], low, high, target);
      Rates.DecayFirst(c.fecRatio - target, 0.8, |HalfSeconds(next.lastAdjust, beats[1..])| + 1);
    }
  }

  // When the measured loss and every report are one rate, the ratio closes in on 1.5 times that, within 5% and
  // 40%, by exactly 0.8 for each adjustment, and adjustments are more than half a second apart.
  lemma {:induction false} RatioFollowsLoss(c: Controller, beats: seq<Beat>, rate: real)
    requires c.measuredLoss == rate && ReportsAtLeast(beats, rate) && ReportsAtMost(beats, rate)
    ensures var target := if 1.5 * rate < 0.05 then 0.05 else if 1.5 * rate > 0.4 then 0.4 else 1.5 * rate;
      ReactAll(c, beats).fecRatio - target
      == Rates.Decay(c.fecRatio - target, 0.8, |HalfSeconds(c.lastAdjust, beats)|)
  {
    hide Rates.Decay, LossRate, React, HalfSeconds;
    RunGoesTo(c, beats, rate, rate, Target(rate));
  }

  // All decisions of a session lie in [2000, 80000] and are 200 ms apart; the rate is that of the last one.
  lemma {:induction false} SessionDecisions(beats: seq<Beat>)
    ensures var d := DecisionsOf(STARTED, beats);
      && (forall i :: 0 <= i < |d| ==> 2000 <= d[i].rate <= 80000)
      && (forall i :: 0 <= i < |d| ==> d[i].time - (if i == 0 then 0 else d[i - 1].time) >= 200000)
      && ReactAll(STARTED, beats).estimator.bitrate == if d == [] then 20000 else d[|d| - 1].rate
  {
    SessionRun(beats);
    hide *;
    OrderlyInNumbers(DecisionsOf(STARTED, beats));
  }

  lemma {:induction false} SessionRun(beats: seq<Beat>)
    ensures var d := DecisionsOf(STARTED, beats);
      Rates.Orderly(UNUSED.config, 0, d)
      && ReactAll(STARTED, beats).estimator.bitrate == if d == [] then 20000 else d[|d| - 1].rate
  {
    hide Rates.Run, Rates.Decisions, ReactAll, EventsOfAll, Rates.WellFed, Rates.Orderly;
    EventsOfAllAreFed(beats);
    RunOfEvents(STARTED, beats);
    Rates.EveryRun(STARTED.estimator, EventsOfAll(beats));
  }

  lemma {:induction false} OrderlyInNumbers(d: seq<Rates.Decision>)
    requires Rates.Orderly(UNUSED.config, 0, d)
    ensures forall i :: 0 <= i < |d| ==> 2000 <= d[i].rate <= 80000
    ensures forall i :: 0 <= i < |d| ==> d[i].time - (if i == 0 then 0 else d[i - 1].time) >= 200000
  {
    forall i | 0 <= i < |d| ensures d[i].time - (if i == 0 then 0 else d[i - 1].time) >= 200000 {
      assert d[i].time - Rates.TimeBefore(0, d, i) >= 200000;
    }
  }

  lemma {:induction false} EventsOfAllAreFed(beats: seq<Beat>)
    ensures Rates.WellFed(EventsOfAll(beats))
  {
    hide EventsOf;
    if beats != [] {
      EventsAreFine(beats[0].report, beats[0].now);
      EventsOfAllAreFed(beats[1..]);
    }
  }
}
