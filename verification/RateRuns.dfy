// What the bitrate controller does over whole runs, in any interleaving of delay reports,
// loss reports and decisions.
module RateRuns {
  import opened Wrappers
  import opened CongestionControl

  datatype Event = Delays(entries: seq<Entry>) | Loss(rate: real) | Tick(now: int)

  datatype Decision = Decision(time: int, rate: u32)

  function Apply(e: Estimator, event: Event): Estimator {
    match event
    case Delays(entries) => Feedback(e, entries)
    case Loss(rate) => e.(loss := Smooth(e.loss, rate))
    case Tick(now) => Decide(e, now)
  }

  predicate Decides(e: Estimator, event: Event) { event.Tick? && Due(e, event.now) }

  function Run(e: Estimator, events: seq<Event>): Estimator
    decreases |events|
  {
    if events == [] then e else Run(Apply(e, events[0]), events[1..])
  }

  // The decisions taken, in order.
  function Decisions(e: Estimator, events: seq<Event>): seq<Decision>
    decreases |events|
  {
    if events == [] then []
    else
      var next := Apply(e, events[0]);
      (if Decides(e, events[0]) then [Decision(next.lastDecision, next.bitrate)] else []) + Decisions(next, events[1..])
  }

  // The condition holds whenever a decision is taken.
  ghost predicate AtDecisions(e: Estimator, events: seq<Event>, condition: Estimator -> bool)
    decreases |events|
  {
    events == [] ||
    ((Decides(e, events[0]) ==> condition(e)) && AtDecisions(Apply(e, events[0]), events[1..], condition))
  }

  lemma {:induction false} Append(e: Estimator, a: seq<Event>, b: seq<Event>, condition: Estimator -> bool)
    ensures Run(e, a + b) == Run(Run(e, a), b)
    ensures Decisions(e, a + b) == Decisions(e, a) + Decisions(Run(e, a), b)
    ensures AtDecisions(e, a + b, condition) == (AtDecisions(e, a, condition) && AtDecisions(Run(e, a), b, condition))
    decreases |a|
  {
    hide Apply, Due;
    if a == [] {
      assert a + b == b;
      assert Decisions(e, a) + Decisions(e, b) == Decisions(e, b);
    } else {
      var next := Apply(e, a[0]);
      assert (a + b)[0] == a[0] && (a + b)[1..] == a[1..] + b;
      Append(next, a[1..], b, condition);
    }
  }

  // ----- settings

  // Rates that can be reached do not overflow 32 bits, and the decrease is one.
  predicate Sane(c: Config) {
    && 0 < c.minRate <= c.maxRate
    && c.maxRate + 200 < 0x1_0000_0000
    && Scale(c.maxRate, c.rampUp) < 4294967296.0
    && 1.0 <= c.rampUp
    && 0.0 <= c.rampDown < 1.0
  }

  lemma {:induction false} DefaultsAreSane()
    ensures Sane(DEFAULTS)
  {}

  predicate InRange(e: Estimator) { e.config.minRate <= e.bitrate <= e.config.maxRate }

  // ----- every run

  predicate WellFed(events: seq<Event>) {
    forall i :: 0 <= i < |events| && events[i].Loss? ==> 0.0 <= events[i].rate <= 1.0
  }

  predicate Healthy(e: Estimator) {
    |e.samples| <= WINDOW && 0.0 <= e.loss <= 1.0 && e.config.minRate <= e.config.maxRate
  }

  // Every decision is in range, and comes an interval or more after the one before.
  predicate Orderly(c: Config, since: int, d: seq<Decision>) {
    && (forall i :: 0 <= i < |d| ==> c.minRate <= d[i].rate <= c.maxRate)
    && (forall i :: 0 <= i < |d| ==> d[i].time - TimeBefore(since, d, i) >= c.interval)
  }

  function TimeBefore(since: int, d: seq<Decision>, i: nat): int
    requires i < |d|
  {
    if i == 0 then since else d[i - 1].time
  }

  lemma {:induction false} OrderlyCons(c: Config, since: int, first: Decision, d: seq<Decision>)
    requires Orderly(c, first.time, d)
    requires c.minRate <= first.rate <= c.maxRate && first.time - since >= c.interval
    ensures Orderly(c, since, [first] + d)
  {
    var all := [first] + d;
    forall i | 0 <= i < |all|
      ensures c.minRate <= all[i].rate <= c.maxRate
      ensures all[i].time - TimeBefore(since, all, i) >= c.interval
    {
      if i > 0 {
        assert all[i] == d[i - 1];
        assert TimeBefore(since, all, i) == TimeBefore(first.time, d, i - 1);
      }
    }
  }

  lemma {:induction false} StaysHealthy(e: Estimator, event: Event)
    requires Healthy(e) && (event.Loss? ==> 0.0 <= event.rate <= 1.0)
    ensures var next := Apply(e, event);
      && Healthy(next) && next.config == e.config
      && (if Decides(e, event) then
            next.lastDecision == event.now && e.config.minRate <= next.bitrate <= e.config.maxRate
          else next.lastDecision == e.lastDecision && next.bitrate == e.bitrate)
  {
    hide Wanted, Gradients, Mean;
  }

  lemma {:induction false} EveryRun(e: Estimator, events: seq<Event>)
    requires Healthy(e) && WellFed(events)
    ensures var end := Run(e, events); var d := Decisions(e, events);
      && Healthy(end) && end.config == e.config
      && Orderly(e.config, e.lastDecision, d)
      && end.bitrate == (if d == [] then e.bitrate else d[|d| - 1].rate)
      && end.lastDecision == (if d == [] then e.lastDecision else d[|d| - 1].time)
    decreases |events|
  {
    hide Apply, Healthy, Due, Orderly;
    if events == [] {
      NoDecisions(e.config, e.lastDecision);
    } else {
      var next := Apply(e, events[0]);
      StaysHealthy(e, events[0]);
      EveryRun(next, events[1..]);
      var d := Decisions(next, events[1..]);
      if Decides(e, events[0]) {
        var first := Decision(next.lastDecision, next.bitrate);
        DueMeans(e, events[0].now);
        OrderlyCons(e.config, e.lastDecision, first, d);
        assert Decisions(e, events) == [first] + d;
      } else {
        assert Decisions(e, events) == [] + d == d;
      }
    }
  }

  lemma {:induction false} NoDecisions(c: Config, since: int)
    ensures Orderly(c, since, [])
  {}

  lemma {:induction false} DueMeans(e: Estimator, now: int)
    ensures Due(e, now) <==> now - e.lastDecision >= e.config.interval
  {}

  // ----- overuse drives the rate down

  lemma {:induction false} ScaleMono(a: nat, b: nat, factor: real)
    requires a <= b && factor >= 0.0
    ensures 0.0 <= Scale(a, factor) <= Scale(b, factor)
  {
    assert Scale(b, factor) - Scale(a, factor) == (b - a) as real * factor;
  }

  lemma {:induction false} ScaleShrinks(a: nat, factor: real)
    requires 0.0 <= factor < 1.0 && a > 0
    ensures 0.0 <= Scale(a, factor) < a as real
  {
    assert a as real - Scale(a, factor) == a as real * (1.0 - factor);
  }

  predicate Overused(e: Estimator) { e.loss > 0.05 || e.gradient > 0.03 }

  // A decision at overuse lowers the rate, but not below the least rate.
  lemma {:induction false} OveruseDecision(e: Estimator, now: int)
    requires Sane(e.config) && InRange(e) && Overused(e) && Due(e, now)
    ensures var next, scaled := Decide(e, now).bitrate, Scale(e.bitrate, e.config.rampDown);
      && InRange(Decide(e, now)) && 0.0 <= e.config.rampDown < 1.0
      && (next == e.config.minRate || (next < e.bitrate && next as real <= scaled))
  {
    hide Scale, Wanted;
    ScaleShrinks(e.bitrate, e.config.rampDown);
    WantedAtOveruse(e);
  }

  lemma {:induction false} WantedAtOveruse(e: Estimator)
    requires Overused(e) && 0.0 <= Scale(e.bitrate, e.config.rampDown) < e.bitrate as real
    ensures Wanted(e) as real <= Scale(e.bitrate, e.config.rampDown)
  {
    hide Scale;
    NineTenths(ToRate(Scale(e.bitrate, e.config.rampDown)));
  }

  // With limits the wrong way round a decision always gives the least rate.
  lemma {:induction false} LimitsSwapped(e: Estimator, now: int)
    requires e.config.maxRate <= e.config.minRate && Due(e, now)
    ensures Decide(e, now).bitrate == e.config.minRate
  {
    hide Wanted;
  }

  // By the factor, rounded down, and at heavy loss by a tenth more.
  lemma {:induction false} OveruseAmount(e: Estimator, now: int)
    requires Sane(e.config) && InRange(e) && Overused(e) && Due(e, now)
    ensures var next, scaled := Decide(e, now).bitrate, Scale(e.bitrate, e.config.rampDown);
      && next as real > (if e.loss > 0.15 then 0.9 * scaled - 2.0 else scaled - 1.0)
      && (e.loss > 0.15 ==> next == e.config.minRate || next as real <= 0.9 * scaled)
  {
    hide Scale;
    ScaleShrinks(e.bitrate, e.config.rampDown);
    NineTenths(ToRate(Scale(e.bitrate, e.config.rampDown)));
  }

  lemma {:induction false} NineTenths(rate: nat)
    ensures Scale(rate, 0.9) == 0.9 * rate as real
  {}

  // At underuse it raises the rate by the factor, rounded down, up to the greatest rate.
  lemma {:induction false} UnderuseDecision(e: Estimator, now: int)
    requires Sane(e.config) && InRange(e) && e.loss <= 0.05 && e.gradient < -0.02 && Due(e, now)
    ensures var next, scaled := Decide(e, now).bitrate, Scale(e.bitrate, e.config.rampUp);
      && InRange(Decide(e, now)) && e.bitrate <= next && next as real <= scaled
      && (next == e.config.maxRate || next as real > scaled - 1.0)
  {
    hide Scale;
    var c := e.config;
    ScaleGrows(e.bitrate, c.rampUp);
    ScaleMono(e.bitrate, c.maxRate, c.rampUp);
  }

  lemma {:induction false} ScaleGrows(a: nat, factor: real)
    requires factor >= 1.0
    ensures Scale(a, factor) >= a as real
  {
    assert Scale(a, factor) - a as real == a as real * (factor - 1.0);
  }

  // b * factor^n
  function Decay(b: real, factor: real, n: nat): real
    decreases n
  {
    if n == 0 then b else Product(Decay(b, factor, n - 1), factor)
  }

  lemma {:induction false} ProductMono(a: real, b: real, factor: real)
    requires a <= b && factor >= 0.0
    ensures Product(a, factor) <= Product(b, factor)
  {
    assert Product(b, factor) - Product(a, factor) == (b - a) * factor;
  }

  lemma {:induction false} ProductShrinks(a: real, factor: real)
    requires a >= 0.0 && 0.0 <= factor <= 1.0
    ensures 0.0 <= Product(a, factor) <= a
  {
    assert a - Product(a, factor) == a * (1.0 - factor);
  }

  lemma {:induction false} NoDecay(b: real, factor: real)
    ensures Decay(b, factor, 0) == b
  {}

  // The first decrease instead of the last.
  lemma {:induction false} DecayFirst(b: real, factor: real, n: nat)
    requires n > 0
    ensures Decay(b, factor, n) == Decay(Product(b, factor), factor, n - 1)
  {
    if n > 1 { DecayFirst(b, factor, n - 1); }
  }

  lemma {:induction false} DecayMono(a: real, b: real, factor: real, n: nat)
    requires 0.0 <= a <= b && 0.0 <= factor <= 1.0
    ensures 0.0 <= Decay(a, factor, n) <= Decay(b, factor, n)
  {
    if n > 0 {
      DecayMono(a, b, factor, n - 1);
      ProductMono(Decay(a, factor, n - 1), Decay(b, factor, n - 1), factor);
      ProductShrinks(Decay(a, factor, n - 1), factor);
    }
  }

  lemma {:induction false} DecayShrinks(b: real, factor: real, n: nat, more: nat)
    requires 0.0 <= b && 0.0 <= factor <= 1.0 && n <= more
    ensures 0.0 <= Decay(b, factor, more) <= Decay(b, factor, n)
  {
    if n < more {
      DecayShrinks(b, factor, n, more - 1);
      ProductShrinks(Decay(b, factor, more - 1), factor);
    } else {
      DecayMono(b, b, factor, n);
    }
  }

  // One decision's decrease, followed by n.
  lemma {:induction false} DecayStep(b: nat, next: nat, least: nat, factor: real, n: nat)
    requires 0.0 <= factor < 1.0 && (next == least || next as real <= Scale(b, factor))
    ensures var d := Decay(next as real, factor, n); d <= least as real || d <= Decay(b as real, factor, n + 1)
  {
    hide Product;
    DecayFirst(b as real, factor, n + 1);
    if next == least {
      DecayShrinks(next as real, factor, 0, n);
    } else {
      DecayMono(next as real, Scale(b, factor), factor, n);
    }
  }

  // While decisions are taken at overuse, n of them bring the rate b down to
  // at most b * rampDown^n, or to the least rate.
  lemma {:induction false} OveruseDrivesDown(e: Estimator, events: seq<Event>)
    requires Sane(e.config) && InRange(e) && AtDecisions(e, events, Overused)
    ensures var end := Run(e, events);
      && end.config == e.config && InRange(end)
      && (end.bitrate == e.config.minRate
          || end.bitrate as real <= Decay(e.bitrate as real, e.config.rampDown, |Decisions(e, events)|))
    decreases |events|
  {
    hide Sane, Overused, Apply, Decay, Scale, Decide;
    NoDecay(e.bitrate as real, e.config.rampDown);
    if events != [] {
      var next := Apply(e, events[0]);
      var n := |Decisions(next, events[1..])|;
      OneEvent(e, events[0]);
      if Decides(e, events[0]) { OveruseDecision(e, events[0].now); }
      OveruseDrivesDown(next, events[1..]);
      if Decides(e, events[0]) {
        DecayStep(e.bitrate, next.bitrate, e.config.minRate, e.config.rampDown, n);
      }
    }
  }

  // Only a decision moves the rate.
  lemma {:induction false} OneEvent(e: Estimator, event: Event)
    ensures var next := Apply(e, event);
      && next.config == e.config
      && (if Decides(e, event) then next == Decide(e, event.now)
          else next.bitrate == e.bitrate && next.lastDecision == e.lastDecision)
      && (InRange(e) && !Decides(e, event) ==> InRange(next))
  {
    hide Wanted, Clamp, Gradients, Mean;
  }

  // Enough decisions for rampDown^n * b to pass the least rate leave exactly that rate.
  lemma {:induction false} OveruseReachesMinimum(e: Estimator, events: seq<Event>, n: nat)
    requires Sane(e.config) && InRange(e) && AtDecisions(e, events, Overused)
    requires Decay(e.bitrate as real, e.config.rampDown, n) <= e.config.minRate as real
    requires |Decisions(e, events)| >= n
    ensures Run(e, events).bitrate == e.config.minRate
  {
    hide Decay, Run, AtDecisions, Decisions;
    OveruseDrivesDown(e, events);
    DecayShrinks(e.bitrate as real, e.config.rampDown, n, |Decisions(e, events)|);
  }

  // ----- quiet links let the rate up

  predicate Calm(e: Estimator) { e.loss <= 0.05 && -0.02 <= e.gradient <= 0.03 }

  function Lesser(a: nat, b: nat): nat { if a < b then a else b }

  // n decisions on a calm link raise the rate by 200 each, up to the greatest rate.
  lemma {:induction false} CalmRaises(e: Estimator, events: seq<Event>)
    requires Sane(e.config) && InRange(e) && AtDecisions(e, events, Calm)
    ensures var end := Run(e, events);
      end.config == e.config && end.bitrate == Lesser(e.config.maxRate, e.bitrate + 200 * |Decisions(e, events)|)
    decreases |events|
  {
    hide Calm, Apply, Scale, Decide;
    if events != [] {
      var next := Apply(e, events[0]);
      OneEvent(e, events[0]);
      if Decides(e, events[0]) { CalmDecision(e, events[0].now); }
      CalmRaises(next, events[1..]);
    }
  }

  lemma {:induction false} CalmDecision(e: Estimator, now: int)
    requires Sane(e.config) && InRange(e) && Calm(e) && Due(e, now)
    ensures var next := Decide(e, now);
      InRange(next) && next.bitrate == Lesser(e.config.maxRate, e.bitrate + 200)
  {
    hide Scale;
  }

  // No packet of the event, or of the window, was sent after the one before it.
  predicate SendTimesStill(event: Event) {
    event.Delays? ==>
      forall i :: 0 <= i < |event.entries| - 1 ==> event.entries[i + 1].sendTime <= event.entries[i].sendTime
  }

  predicate NoSpacing(samples: seq<Sample>) {
    forall i :: 0 <= i < |samples| ==> samples[i].sendDelta <= 0
  }

  lemma {:induction false} NoGradients(samples: seq<Sample>)
    requires NoSpacing(samples)
    ensures Gradients(samples) == []
  {
    if samples != [] { NoGradients(samples[..|samples| - 1]); }
  }

  lemma {:induction false} StillEvent(e: Estimator, event: Event)
    requires NoSpacing(e.samples) && SendTimesStill(event)
    ensures var next := Apply(e, event); NoSpacing(next.samples) && next.gradient == e.gradient
  {
    hide Wanted, Clamp, Mean;
    if event.Delays? && |event.entries| >= 2 {
      NoGradients(Newest(e.samples + SamplesOf(event.entries)));
    }
  }

  predicate LowLoss(e: Estimator) { e.loss <= 0.05 }

  // Without send times that advance, delay reports change nothing: the rate follows loss alone.
  lemma {:induction false} StillRuns(e: Estimator, events: seq<Event>)
    requires NoSpacing(e.samples) && forall i :: 0 <= i < |events| ==> SendTimesStill(events[i])
    ensures var end := Run(e, events); NoSpacing(end.samples) && end.gradient == e.gradient
    ensures e.gradient == 0.0 && AtDecisions(e, events, LowLoss) ==> AtDecisions(e, events, Calm)
    decreases |events|
  {
    hide Apply, NoSpacing, SendTimesStill;
    if events != [] {
      StillEvent(e, events[0]);
      StillRuns(Apply(e, events[0]), events[1..]);
    }
  }

  lemma {:induction false} LowLossRaises(e: Estimator, events: seq<Event>)
    requires Sane(e.config) && InRange(e) && AtDecisions(e, events, LowLoss)
    requires NoSpacing(e.samples) && e.gradient == 0.0
    requires forall i :: 0 <= i < |events| ==> SendTimesStill(events[i])
    ensures var n := |Decisions(e, events)|; var end := Run(e, events);
      && end.bitrate == Lesser(e.config.maxRate, e.bitrate + 200 * n)
      && (end.bitrate == e.config.maxRate <==> 200 * n >= e.config.maxRate - e.bitrate)
  {
    hide Run, AtDecisions, Decisions, Calm, SendTimesStill;
    StillRuns(e, events);
    CalmRaises(e, events);
  }

  // ----- the smoothed gradient

  lemma {:induction false} SumBetween(values: seq<real>, low: real, high: real)
    requires forall i :: 0 <= i < |values| ==> low <= values[i] <= high
    ensures low * |values| as real <= Sum(values) <= high * |values| as real
  {
    if values != [] { SumBetween(values[..|values| - 1], low, high); }
  }

  lemma {:induction false} MeanBetween(values: seq<real>, low: real, high: real)
    requires values != [] && forall i :: 0 <= i < |values| ==> low <= values[i] <= high
    ensures low <= Mean(values) <= high
  {
    SumBetween(values, low, high);
    QuotientBetween(Sum(values), |values| as real, low, high);
  }

  lemma {:induction false} QuotientBetween(sum: real, n: real, low: real, high: real)
    requires n > 0.0 && low * n <= sum <= high * n
    ensures low <= sum / n <= high
  {
    assert sum / n * n == sum;
  }

  // A delay report moves the gradient 15% of the way to a mean of the window's gradients: it never
  // leaves their range once inside, and closes in on a common value by exactly 0.85.
  lemma {:induction false} GradientFollows(e: Estimator, entries: seq<Entry>, low: real, high: real)
    requires |entries| >= 2
    requires var g := Gradients(Newest(e.samples + SamplesOf(entries)));
      g != [] && forall i :: 0 <= i < |g| ==> low <= g[i] <= high
    ensures var next := Feedback(e, entries);
      && (low <= e.gradient <= high ==> low <= next.gradient <= high)
      && (low == high ==> next.gradient - low == 0.85 * (e.gradient - low))
  {
    hide Mean, Gradients, Newest;
    MeanBetween(Gradients(Newest(e.samples + SamplesOf(entries))), low, high);
  }

  // ----- reports, in numbers

  // A loss report moves smoothed loss three tenths of the way to the rate it reports, and nothing else.
  lemma {:induction false} LossReport(e: Estimator, rate: real)
    ensures Apply(e, Loss(rate)).loss - rate == 0.7 * (e.loss - rate)
    ensures Apply(e, Loss(rate)) == e.(loss := Apply(e, Loss(rate)).loss)
  {}

  // n reports of one rate shrink the distance to it by exactly 0.7^n.
  lemma {:induction false} LossReports(e: Estimator, events: seq<Event>, rate: real)
    requires forall i :: 0 <= i < |events| ==> events[i] == Loss(rate)
    ensures Run(e, events).loss - rate == Decay(e.loss - rate, 0.7, |events|)
    decreases |events|
  {
    hide Apply, Decay;
    NoDecay(e.loss - rate, 0.7);
    if events != [] {
      LossReport(e, rate);
      LossReports(Apply(e, events[0]), events[1..], rate);
      DecayFirst(e.loss - rate, 0.7, |events|);
    }
  }

  // The window after a delay report: the samples it had, then one for each entry but the first, without the d
  // oldest of these when they are d more than 50. Read at one place j.
  lemma {:induction false} NewestFifty(e: Estimator, entries: seq<Entry>, j: nat)
    requires |entries| >= 2
    ensures var s, k, n := Feedback(e, entries).samples, |e.samples|, |entries| - 1;
      var d := if k + n > 50 then k + n - 50 else 0;
      && |s| == k + n - d
      && (j < |s| && j + d < k ==> s[j] == e.samples[j + d])
      && (j < |s| && j + d >= k ==>
          s[j].sendDelta == entries[j + d - k + 1].sendTime - entries[j + d - k].sendTime
          && s[j].arrivalDelta == 250 * entries[j + d - k + 1].arrivalDelta)
  {
    WindowAfter(e, entries);
    hide *;
    var k, n := |e.samples|, |entries| - 1;
    var d := if k + n > 50 then k + n - 50 else 0;
    EndOf(e.samples, SamplesOf(entries), Feedback(e, entries).samples);
    if k <= j + d < k + n { SampleAt(entries, j + d - k); }
  }

  lemma {:induction false} SampleAt(entries: seq<Entry>, i: nat)
    requires i + 1 < |entries|
    ensures SamplesOf(entries)[i] ==
      Sample(entries[i + 1].sendTime - entries[i].sendTime, 250 * entries[i + 1].arrivalDelta)
  {}

  // The last 50 of one sequence and another behind it.
  lemma {:induction false} EndOf(a: seq<Sample>, b: seq<Sample>, s: seq<Sample>)
    requires s == if |a + b| > 50 then (a + b)[|a + b| - 50..] else a + b
    ensures var d := if |a| + |b| > 50 then |a| + |b| - 50 else 0;
      && |s| == |a| + |b| - d
      && (forall j :: 0 <= j < |s| && j + d < |a| ==> s[j] == a[j + d])
      && (forall j :: 0 <= j < |s| && j + d >= |a| ==> s[j] == b[j + d - |a|])
  {}

  lemma {:induction false} WindowAfter(e: Estimator, entries: seq<Entry>)
    requires |entries| >= 2
    ensures var all := e.samples + SamplesOf(entries);
      Feedback(e, entries).samples == if |all| > 50 then all[|all| - 50..] else all
  {
    hide Gradients, Mean, SamplesOf;
  }

  // The later of two packets arrived 1 + g times as long after the earlier as it was sent; arrivals count in
  // quarters of a millisecond.
  predicate Follows(before: Entry, entry: Entry, g: real) {
    entry.sendTime > before.sendTime &&
    250.0 * entry.arrivalDelta as real == (1.0 + g) * (entry.sendTime - before.sendTime) as real
  }

  predicate Spread(entries: seq<Entry>, g: real) {
    |entries| >= 2 && forall i :: 0 <= i < |entries| - 1 ==> Follows(entries[i], entries[i + 1], g)
  }

  predicate IsSpread(s: Sample, g: real) {
    s.sendDelta > 0 && s.arrivalDelta as real == (1.0 + g) * s.sendDelta as real
  }

  predicate SpreadSamples(samples: seq<Sample>, g: real) {
    forall i :: 0 <= i < |samples| ==> IsSpread(samples[i], g)
  }

  lemma {:induction false} SpreadGradient(s: Sample, g: real)
    requires IsSpread(s, g)
    ensures GradientOf(s) == g
  {
    assert (s.arrivalDelta - s.sendDelta) as real == g * s.sendDelta as real;
  }

  lemma {:induction false} SpreadGradients(samples: seq<Sample>, g: real)
    requires SpreadSamples(samples, g)
    ensures |Gradients(samples)| == |samples|
    ensures forall i :: 0 <= i < |samples| ==> Gradients(samples)[i] == g
  {
    if samples != [] {
      var n := |samples| - 1;
      SpreadGradient(samples[n], g);
      hide GradientOf;
      assert SpreadSamples(samples[..n], g) by { hide IsSpread; }
      SpreadGradients(samples[..n], g);
    }
  }

  lemma {:induction false} SpreadReport(e: Estimator, entries: seq<Entry>, g: real)
    requires SpreadSamples(e.samples, g) && Spread(entries, g)
    ensures var next := Feedback(e, entries);
      SpreadSamples(next.samples, g) && next.gradient - g == 0.85 * (e.gradient - g)
  {
    NewSpread(entries, g);
    hide SamplesOf, Spread, SpreadSamples, Gradients, Mean, Newest;
    SpreadWindow(e.samples, SamplesOf(entries), g);
    SpreadGradients(Newest(e.samples + SamplesOf(entries)), g);
    GradientFollows(e, entries, g, g);
  }

  lemma {:induction false} NewSpread(entries: seq<Entry>, g: real)
    requires Spread(entries, g)
    ensures SpreadSamples(SamplesOf(entries), g)
  {
    hide Follows, IsSpread;
    forall i | 0 <= i < |entries| - 1 ensures IsSpread(SamplesOf(entries)[i], g) {
      PairIsSpread(entries[i], entries[i + 1], g);
      hide *;
      SampleAt(entries, i);
    }
  }

  lemma {:induction false} PairIsSpread(before: Entry, entry: Entry, g: real)
    requires Follows(before, entry, g)
    ensures IsSpread(Sample(entry.sendTime - before.sendTime, 250 * entry.arrivalDelta), g)
  {}

  lemma {:induction false} SpreadWindow(a: seq<Sample>, b: seq<Sample>, g: real)
    requires SpreadSamples(a, g) && SpreadSamples(b, g)
    ensures SpreadSamples(Newest(a + b), g) && |Newest(a + b)| >= (if b == [] then 0 else 1)
  {
    hide IsSpread;
  }

  // When all packets arrive 1 + g times as far apart as they were sent, n delay reports bring the gradient to
  // g but for 0.85^n of the distance: a growing delay shows as a positive gradient, a shrinking one as a
  // negative one.
  lemma {:induction false} SpreadReports(e: Estimator, events: seq<Event>, g: real)
    requires SpreadSamples(e.samples, g)
    requires forall i :: 0 <= i < |events| ==> events[i].Delays? && Spread(events[i].entries, g)
    ensures var end := Run(e, events);
      && end.gradient - g == Decay(e.gradient - g, 0.85, |events|)
      && end == e.(samples := end.samples, gradient := end.gradient)
    decreases |events|
  {
    hide SpreadSamples, Spread, Decay, Newest, Mean, Gradients;
    NoDecay(e.gradient - g, 0.85);
    if events != [] {
      SpreadReport(e, events[0].entries, g);
      SpreadReports(Apply(e, events[0]), events[1..], g);
      DecayFirst(e.gradient - g, 0.85, |events|);
    }
  }

  lemma {:induction false} ThreeFactors(b: real, factor: real)
    ensures Decay(b, factor, 2) == b * factor * factor && Decay(b, factor, 3) == b * factor * factor * factor
  {
    assert Decay(b, factor, 1) == b * factor;
  }

  // Starting from the default settings: three reports of packets arriving a tenth further apart than they were
  // sent make the next decision lower the rate from 20000 to 17000 kbit/s; two reports of packets a tenth
  // closer together make it 21600.
  lemma {:induction false} DelayDecides(events: seq<Event>, g: real, now: int)
    requires forall i :: 0 <= i < |events| ==> events[i].Delays? && Spread(events[i].entries, g)
    requires now >= 200000
    ensures g == 0.1 && |events| == 3 ==> Decide(Run(UNUSED, events), now).bitrate == 17000
    ensures g == -0.1 && |events| == 2 ==> Decide(Run(UNUSED, events), now).bitrate == 21600
    ensures |events| == 1 && -0.1 <= g <= 0.1 ==> Decide(Run(UNUSED, events), now).bitrate == 20200
  {
    hide Spread, Run;
    SpreadReports(UNUSED, events, g);
    ThreeFactors(-g, 0.85);
  }

  lemma {:induction false} Hundredths(b: nat, percent: nat)
    ensures (b as real * (percent as real / 100.0)).Floor == percent * b / 100
  {
    assert b as real * (percent as real / 100.0) == (percent * b) as real / 100.0;
    FloorOfQuotient(percent * b, 100);
  }

  lemma {:induction false} FloorOfQuotient(a: nat, n: nat)
    requires n > 0
    ensures (a as real / n as real).Floor == a / n
  {
    var q, r := a / n, a % n;
    assert a as real / n as real == q as real + r as real / n as real;
    assert 0.0 <= r as real / n as real < 1.0;
  }

  function Greater(a: nat, b: nat): nat { if a > b then a else b }

  // A decision with the default settings, in whole numbers.
  lemma {:induction false} DefaultDecision(e: Estimator, now: int)
    requires e.config == UNUSED.config && 2000 <= e.bitrate <= 80000 && now - e.lastDecision >= 200000
    ensures Decide(e, now) == e.(bitrate := Decide(e, now).bitrate, lastDecision := now)
    ensures var b := e.bitrate;
      Decide(e, now).bitrate ==
        if e.loss > 0.15 then Greater(2000, 90 * (85 * b / 100) / 100)
        else if e.loss > 0.05 || e.gradient > 0.03 then Greater(2000, 85 * b / 100)
        else if e.gradient < -0.02 then Lesser(80000, 108 * b / 100)
        else Lesser(80000, b + 200)
  {
    hide Wanted, Decide;
    WantedByDefault(e);
    DefaultBounds(e.bitrate);
    DefaultBounds(85 * e.bitrate / 100);
    ClampedByDefault(e, now);
  }

  lemma {:induction false} ClampedByDefault(e: Estimator, now: int)
    requires e.config == UNUSED.config && now - e.lastDecision >= 200000
    ensures Decide(e, now) == e.(bitrate := Greater(2000, Lesser(80000, Wanted(e))), lastDecision := now)
  {
    hide Wanted;
  }

  lemma {:induction false} WantedByDefault(e: Estimator)
    requires e.config == UNUSED.config && 2000 <= e.bitrate <= 80000
    ensures var b := e.bitrate;
      Wanted(e) ==
        if e.loss > 0.15 then 90 * (85 * b / 100) / 100
        else if e.loss > 0.05 || e.gradient > 0.03 then 85 * b / 100
        else if e.gradient < -0.02 then 108 * b / 100
        else b + 200
  {
    var b := e.bitrate;
    DefaultFactors(b);
    DefaultBounds(b);
    DefaultFactors(85 * b / 100);
    hide Scale, ToRate;
  }

  lemma {:induction false} DefaultBounds(b: nat)
    ensures 0 <= 85 * b / 100 <= b <= 108 * b / 100 && 0 <= 90 * b / 100 <= b
  {}

  lemma {:induction false} DefaultFactors(b: nat)
    requires b <= 80000
    ensures ToRate(Scale(b, 0.85)) == 85 * b / 100 && ToRate(Scale(b, 0.9)) == 90 * b / 100
    ensures ToRate(Scale(b, 1.08)) == 108 * b / 100
  {
    Hundredths(b, 85);
    Hundredths(b, 90);
    Hundredths(b, 108);
  }
}
