// The bitrate controller of congestion.cpp, over exact reals: a float cast to an
// integer is rounded down, as in the source, but float arithmetic is not rounded.
module CongestionControl {
  import opened Wrappers

  const WINDOW: nat := 50

  datatype Config = Config(minRate: u32, maxRate: u32, startRate: u32, rampUp: real, rampDown: real, interval: int)

  const DEFAULTS: Config := Config(2000, 80000, 20000, 1.08, 0.85, 200000)

  // A report entry: when a packet was sent (us), and how long after the one before it arrived (1/4 ms).
  datatype Entry = Entry(sendTime: int, arrivalDelta: int)

  datatype Sample = Sample(sendDelta: int, arrivalDelta: int)

  datatype Signal = Underuse | Normal | Overuse

  datatype Estimator = Estimator(
    config: Config,
    bitrate: u32,
    samples: seq<Sample>,
    gradient: real,
    loss: real,
    lastDecision: int)

  const UNUSED: Estimator := Estimator(DEFAULTS, 20000, [], 0.0, 0.0, 0)

  // ----- delay gradient

  function SamplesOf(entries: seq<Entry>): (s: seq<Sample>)
    requires entries != []
    ensures |s| == |entries| - 1
    ensures forall i {:trigger s[i]} :: 0 <= i < |s| ==>
      s[i] == Sample(entries[i + 1].sendTime - entries[i].sendTime, entries[i + 1].arrivalDelta * 250)
  {
    seq(|entries| - 1, i requires 0 <= i < |entries| - 1 =>
      Sample(entries[i + 1].sendTime - entries[i].sendTime, entries[i + 1].arrivalDelta * 250))
  }

  function Newest(samples: seq<Sample>): (s: seq<Sample>)
    ensures |s| <= WINDOW
  {
    if |samples| <= WINDOW then samples else samples[|samples| - WINDOW..]
  }

  // The end of all, long enough to fill the window where all is.
  predicate LatestOf(samples: seq<Sample>, all: seq<Sample>) {
    |samples| <= |all| && samples == all[|all| - |samples|..] && (|samples| >= WINDOW || samples == all)
  }

  lemma {:induction false} LatestOfMore(samples: seq<Sample>, all: seq<Sample>, s: Sample)
    requires LatestOf(samples, all)
    ensures LatestOf(samples + [s], all + [s])
  {}

  lemma {:induction false} LatestOfFewer(samples: seq<Sample>, all: seq<Sample>)
    requires LatestOf(samples, all) && |samples| > WINDOW
    ensures LatestOf(samples[1..], all)
  {}

  lemma {:induction false} LatestFits(samples: seq<Sample>, all: seq<Sample>)
    requires LatestOf(samples, all)
    ensures |samples| <= WINDOW ==> samples == Newest(all)
  {}

  lemma {:induction false} AllIsLatest(all: seq<Sample>)
    ensures LatestOf(all, all)
  {}

  function GradientOf(s: Sample): real
    requires s.sendDelta > 0
  {
    (s.arrivalDelta - s.sendDelta) as real / s.sendDelta as real
  }

  // The gradients of the samples whose packets were sent apart.
  function Gradients(samples: seq<Sample>): seq<real> {
    if samples == [] then []
    else
      var last := samples[|samples| - 1];
      Gradients(samples[..|samples| - 1]) + if last.sendDelta > 0 then [GradientOf(last)] else []
  }

  function Sum(values: seq<real>): real {
    if values == [] then 0.0 else Sum(values[..|values| - 1]) + values[|values| - 1]
  }

  function Mean(values: seq<real>): real
    requires values != []
  {
    Sum(values) / |values| as real
  }

  function Feedback(e: Estimator, entries: seq<Entry>): Estimator {
    if |entries| < 2 then e
    else
      var samples := Newest(e.samples + SamplesOf(entries));
      var gradients := Gradients(samples);
      e.(samples := samples,
         gradient := if gradients == [] then e.gradient else e.gradient * 0.85 + Mean(gradients) * 0.15)
  }

  // ----- loss

  function Smooth(average: real, value: real): real { average * 0.7 + value * 0.3 }

  // ----- decisions

  // A float cast to uint32_t.
  function ToRate(r: real): u32 { r.Floor % 0x1_0000_0000 }

  function Product(a: real, b: real): real { a * b }

  function Scale(rate: nat, factor: real): real { Product(rate as real, factor) }

  function DelaySignal(gradient: real): Signal {
    if gradient > 0.03 then Overuse else if gradient < -0.02 then Underuse else Normal
  }

  // Loss above 5% counts as overuse whatever the delays say.
  function SignalOf(e: Estimator): Signal {
    if e.loss > 0.05 then Overuse else DelaySignal(e.gradient)
  }

  function Wanted(e: Estimator): u32 {
    match SignalOf(e)
    case Underuse => ToRate(Scale(e.bitrate, e.config.rampUp))
    case Normal => (e.bitrate + 200) % 0x1_0000_0000
    case Overuse =>
      var lower := ToRate(Scale(e.bitrate, e.config.rampDown));
      if e.loss > 0.15 then ToRate(Scale(lower, 0.9)) else lower
  }

  function Clamp(c: Config, rate: u32): u32 {
    var most := if rate < c.maxRate then rate else c.maxRate;
    if most > c.minRate then most else c.minRate
  }

  predicate Due(e: Estimator, now: int) { now - e.lastDecision >= e.config.interval }

  function Decide(e: Estimator, now: int): Estimator {
    if Due(e, now) then e.(bitrate := Clamp(e.config, Wanted(e)), lastDecision := now) else e
  }

  class CongestionEstimator {
    var config: Config
    var bitrate: u32
    var samples: seq<Sample>
    var gradient: real
    var loss: real
    var lastDecision: int

    function State(): Estimator
      reads this
    {
      Estimator(config, bitrate, samples, gradient, loss, lastDecision)
    }

    constructor ()
      ensures State() == UNUSED
    {
      config, bitrate, samples, gradient, loss, lastDecision := DEFAULTS, 20000, [], 0.0, 0.0, 0;
    }

    method Init(c: Config, now: int)
      modifies this
      ensures State() == old(State()).(config := c, bitrate := c.startRate, lastDecision := now)
    {
      config, bitrate, lastDecision := c, c.startRate, now;
    }

    method OnTwccFeedback(entries: seq<Entry>)
      modifies this
      ensures State() == Feedback(old(State()), entries)
    {
      if |entries| < 2 { return; }
      AddSamples(entries);
      var sum, count := SumGradients();
      if count > 0 {
        var raw := sum / count as real;
        gradient := gradient * 0.85 + raw * 0.15;
      }
    }

    // Appends the new samples one by one, dropping the oldest beyond 50.
    method AddSamples(entries: seq<Entry>)
      requires |entries| >= 2
      modifies this`samples
      ensures samples == Newest(old(samples) + SamplesOf(entries))
    {
      hide LatestOf, Newest;
      ghost var all, added := samples, SamplesOf(entries);
      AllIsLatest(samples);
      var i := 1;
      while i < |entries|
        invariant 1 <= i <= |entries|
        invariant all == old(samples) + added[..i - 1]
        invariant LatestOf(samples, all)
        invariant i > 1 ==> |samples| <= WINDOW
      {
        var s := Sample(entries[i].sendTime - entries[i - 1].sendTime, entries[i].arrivalDelta * 250);
        AddSample(s, all);
        TakeSnoc(added, i - 1);
        all := all + [s];
        i := i + 1;
      }
      assert added[..i - 1] == added;
      LatestFits(samples, all);
    }

    method AddSample(s: Sample, ghost all: seq<Sample>)
      requires LatestOf(samples, all)
      modifies this`samples
      ensures LatestOf(samples, all + [s]) && |samples| <= WINDOW
    {
      hide LatestOf;
      LatestOfMore(samples, all, s);
      samples := samples + [s];
      while |samples| > WINDOW
        invariant LatestOf(samples, all + [s])
      {
        LatestOfFewer(samples, all + [s]);
        samples := samples[1..];
      }
    }

    method SumGradients() returns (sum: real, count: nat)
      ensures count == |Gradients(samples)| && sum == Sum(Gradients(samples))
    {
      sum, count := 0.0, 0;
      var i := 0;
      while i < |samples|
        invariant 0 <= i <= |samples|
        invariant count == |Gradients(samples[..i])| && sum == Sum(Gradients(samples[..i]))
      {
        var s := samples[i];
        GradientsSnoc(samples[..i], s);
        assert samples[..i + 1] == samples[..i] + [s];
        if s.sendDelta > 0 {
          SumSnoc(Gradients(samples[..i]), GradientOf(s));
          sum := sum + (s.arrivalDelta - s.sendDelta) as real / s.sendDelta as real;
          count := count + 1;
        }
        i := i + 1;
      }
      assert samples[..|samples|] == samples;
    }

    method OnLossUpdate(rate: real)
      modifies this
      ensures State() == old(State()).(loss := Smooth(old(loss), rate))
      ensures loss - rate == 0.7 * (old(loss) - rate)
    {
      loss := loss * 0.7 + rate * 0.3;
    }

    method ClassifyDelay() returns (s: Signal)
      ensures s == DelaySignal(gradient)
    {
      if gradient > 0.03 { return Overuse; }
      if gradient < -0.02 { return Underuse; }
      return Normal;
    }

    // The new bitrate, or 0 when it is too early for a decision.
    method ComputeBitrate(now: int) returns (rate: u32)
      modifies this
      ensures State() == Decide(old(State()), now)
      ensures rate == if old(Due(State(), now)) then bitrate else 0
    {
      if now - lastDecision < config.interval { return 0; }
      lastDecision := now;
      var signal := ClassifyDelay();
      if loss > 0.05 { signal := Overuse; }
      var newRate := bitrate;
      match signal {
        case Underuse =>
          newRate := ToRate(Scale(bitrate, config.rampUp));
        case Normal =>
          newRate := (bitrate + 200) % 0x1_0000_0000;
        case Overuse =>
          newRate := ToRate(Scale(bitrate, config.rampDown));
          if loss > 0.15 { newRate := ToRate(Scale(newRate, 0.9)); }
      }
      newRate := Clamp(config, newRate);
      if newRate != bitrate { bitrate := newRate; }
      return bitrate;
    }
  }

  lemma {:induction false} TakeSnoc(s: seq<Sample>, i: nat)
    requires i < |s|
    ensures s[..i + 1] == s[..i] + [s[i]]
  {}

  lemma {:induction false} SumSnoc(values: seq<real>, v: real)
    ensures Sum(values + [v]) == Sum(values) + v
  {
    assert (values + [v])[..|values|] == values;
  }

  lemma {:induction false} GradientsSnoc(samples: seq<Sample>, s: Sample)
    ensures s.sendDelta > 0 ==> Gradients(samples + [s]) == Gradients(samples) + [GradientOf(s)]
    ensures s.sendDelta <= 0 ==> Gradients(samples + [s]) == Gradients(samples)
  {
    assert (samples + [s])[..|samples|] == samples;
  }
}
