// The host's reaction to feedback packets (host_session.cpp): loss, bitrate and parity ratio.
module HostFeedback {
  import opened Wrappers
  import opened FeedbackWindow
  import opened CongestionControl
  import Rates = RateRuns

  const ADJUST_PERIOD: int := 500000

  // A feedback packet: the client's window, how many arrival entries it announces, and the
  // arrival deltas of those that came with it.
  datatype Report = Report(lossMap: u64, twccCount: u8, deltas: seq<int>)

  datatype Controller = Controller(estimator: Estimator, measuredLoss: real, fecRatio: real, lastAdjust: int)

  const STARTED: Controller := Controller(UNUSED, 0.0, 0.1, 0)

  // The sender keeps no send times: zeros stand for them.
  function Unsent(deltas: seq<int>): (e: seq<Entry>)
    ensures |e| == |deltas| && forall i :: 0 <= i < |e| ==> e[i] == Entry(0, deltas[i])
  {
    seq(|deltas|, i requires 0 <= i < |deltas| => Entry(0, deltas[i]))
  }

  // What one report, with the clock read once, tells the bitrate controller.
  function EventsOf(r: Report, now: int): seq<Rates.Event> {
    [Rates.Loss(LossRate(r.lossMap))]
      + (if 0 < r.twccCount <= |r.deltas| then [Rates.Delays(Unsent(r.deltas[..r.twccCount]))] else [])
      + [Rates.Tick(now)]
  }

  function Target(loss: real): real {
    var wanted := loss * 1.5;
    if wanted < 0.05 then 0.05 else if wanted > 0.4 then 0.4 else wanted
  }

  function Adjusted(ratio: real, loss: real): real { ratio * 0.8 + Target(loss) * 0.2 }

  // One adjustment goes a fifth of the way to 1.5 times the loss, or to 5% or 40% where that lies beyond.
  lemma {:induction false} RatioMoves(ratio: real, loss: real)
    ensures 0.05 <= 1.5 * loss <= 0.4 ==> Adjusted(ratio, loss) - 1.5 * loss == 0.8 * (ratio - 1.5 * loss)
    ensures 1.5 * loss <= 0.05 ==> Adjusted(ratio, loss) - 0.05 == 0.8 * (ratio - 0.05)
    ensures 1.5 * loss >= 0.4 ==> Adjusted(ratio, loss) - 0.4 == 0.8 * (ratio - 0.4)
  {}

  // The controller after a report; it reads the clock for the bitrate, then for the parity ratio.
  function React(c: Controller, r: Report, now: int, later: int): Controller {
    var loss := Smooth(c.measuredLoss, LossRate(r.lossMap));
    var adjust := later - c.lastAdjust > ADJUST_PERIOD;
    Controller(
      Rates.Run(c.estimator, EventsOf(r, now)),
      loss,
      if adjust then Adjusted(c.fecRatio, loss) else c.fecRatio,
      if adjust then later else c.lastAdjust)
  }

  class FeedbackLoop {
    const congestion: CongestionEstimator
    var measuredLoss: real
    var fecRatio: real
    var lastAdjust: int

    function State(): Controller
      reads this, congestion
    {
      Controller(congestion.State(), measuredLoss, fecRatio, lastAdjust)
    }

    constructor ()
      ensures State() == STARTED && fresh(congestion)
    {
      congestion := new CongestionEstimator();
      measuredLoss, fecRatio, lastAdjust := 0.0, 0.1, 0;
    }

    // Returns the bitrate to give to the sender, or 0.
    method OnReport(r: Report, now: int, later: int) returns (rate: u32)
      modifies this, congestion
      ensures State() == React(old(State()), r, now, later)
      ensures var lost := LossRate(r.lossMap); measuredLoss - lost == 0.7 * (old(measuredLoss) - lost)
      ensures later - old(lastAdjust) <= 500000 ==> fecRatio == old(fecRatio) && lastAdjust == old(lastAdjust)
      ensures rate == if old(Due(congestion.State(), now)) then congestion.bitrate else 0
    {
      hide Feedback, Decide, Positions, Rates.Run, EventsOf;
      ghost var was := congestion.State();
      var bits := CountOnes(r.lossMap);
      var loss := 1.0 - bits as real / 64.0;
      measuredLoss := measuredLoss * 0.7 + loss * 0.3;
      congestion.OnLossUpdate(loss);
      if 0 < r.twccCount <= |r.deltas| {
        congestion.OnTwccFeedback(Unsent(r.deltas[..r.twccCount]));
      }
      ReportSteps(was, r, now);
      FeedbackKeepsDue(was, r, now);
      rate := congestion.ComputeBitrate(now);
      if later - lastAdjust > ADJUST_PERIOD {
        AdjustFec(measuredLoss);
        lastAdjust := later;
      }
    }

    method AdjustFec(loss: real)
      modifies this`fecRatio
      ensures fecRatio == Adjusted(old(fecRatio), loss)
      ensures 0.05 <= 1.5 * loss <= 0.4 ==> fecRatio - 1.5 * loss == 0.8 * (old(fecRatio) - 1.5 * loss)
      ensures 1.5 * loss <= 0.05 ==> fecRatio - 0.05 == 0.8 * (old(fecRatio) - 0.05)
      ensures 1.5 * loss >= 0.4 ==> fecRatio - 0.4 == 0.8 * (old(fecRatio) - 0.4)
    {
      var target := loss * 1.5;
      if target > 0.4 { target := 0.4; }
      if target < 0.05 { target := 0.05; }
      fecRatio := fecRatio * 0.8 + target * 0.2;
    }
  }

  // The state in which a report's decision is taken.
  function Heard(e: Estimator, r: Report): Estimator {
    var e := e.(loss := Smooth(e.loss, LossRate(r.lossMap)));
    if 0 < r.twccCount <= |r.deltas| then Feedback(e, Unsent(r.deltas[..r.twccCount])) else e
  }

  lemma {:induction false} ReportSteps(e: Estimator, r: Report, now: int)
    ensures Rates.Run(e, EventsOf(r, now)) == Decide(Heard(e, r), now)
    ensures |Rates.Decisions(e, EventsOf(r, now))| == if Due(e, now) then 1 else 0
  {
    FeedbackKeepsDue(e, r, now);
    var events := EventsOf(r, now);
    var heard := e.(loss := Smooth(e.loss, LossRate(r.lossMap)));
    assert Rates.Apply(e, events[0]) == heard;
    hide Feedback, Decide, LossRate, Smooth, Due;
    if 0 < r.twccCount <= |r.deltas| {
      assert events[1..] == [Rates.Delays(Unsent(r.deltas[..r.twccCount])), Rates.Tick(now)];
      assert events[1..][1..] == [Rates.Tick(now)];
      OneTick(Heard(e, r), now);
    } else {
      assert events[1..] == [Rates.Tick(now)];
      OneTick(heard, now);
    }
  }

  lemma {:induction false} OneTick(e: Estimator, now: int)
    ensures Rates.Run(e, [Rates.Tick(now)]) == Decide(e, now)
    ensures |Rates.Decisions(e, [Rates.Tick(now)])| == if Due(e, now) then 1 else 0
  {}

  lemma {:induction false} FeedbackKeepsDue(e: Estimator, r: Report, now: int)
    ensures Due(Heard(e, r), now) == Due(e, now)
  {}
}
