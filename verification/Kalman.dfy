/**
 The Kalman decision stage: one scalar filter per axis, a short sample window and an
 emission throttle per track. Arithmetic is over exact reals; the variances are inputs.
 */
module Kalman {
  import opened Wrappers
  import opened ProcessingState
  import opened RingGeometry

  const MIN_VARIANCE := 0.000001

  datatype Axis = Axis(estimate: real, covariance: real, initialized: bool)

  const FRESH_AXIS := Axis(0.0, 0.0, false)

  function AtLeastMin(v: real): (r: real)
    ensures r >= MIN_VARIANCE && r >= v && (r == MIN_VARIANCE || r == v)
  {
    if v > MIN_VARIANCE then v else MIN_VARIANCE
  }

  function Predicted(s: Axis, process: real): real {
    s.covariance + AtLeastMin(process)
  }

  /** The weight of the new measurement. */
  function Gain(s: Axis, variance: real, process: real): real
    requires Predicted(s, process) + AtLeastMin(variance) > 0.0
  {
    Predicted(s, process) / (Predicted(s, process) + AtLeastMin(variance))
  }

  function UpdateAxis(s: Axis, measurement: real, variance: real, process: real): Axis {
    if !s.initialized then Axis(measurement, AtLeastMin(variance), true)
    else if Predicted(s, process) + AtLeastMin(variance) <= 0.0 then s.(covariance := Predicted(s, process))
    else
      var gain := Gain(s, variance, process);
      Axis(s.estimate + gain * (measurement - s.estimate), AtLeastMin((1.0 - gain) * Predicted(s, process)), true)
  }

  // ---------------------------------------------------------------------------
  // One axis
  // ---------------------------------------------------------------------------

  ghost predicate AxisSound(s: Axis) {
    s.initialized ==> s.covariance >= MIN_VARIANCE
  }

  lemma FractionBounds(p: real, r: real)
    requires p > 0.0 && r > 0.0
    ensures 0.0 < p / (p + r) < 1.0
    ensures (1.0 - p / (p + r)) * p <= r
  {
    var g := p / (p + r);
    assert g * (p + r) == p;
    ProductPositive(p + r, g) by {
      assert g > 0.0;
    }
    assert (1.0 - g) * (p + r) == r;
    Scale(1.0 - g, r);
    assert (1.0 - g) * p == r - (1.0 - g) * r;
  }

  /** The gain of an initialised axis lies strictly between zero and one. */
  lemma GainStrict(s: Axis, variance: real, process: real)
    requires s.initialized && AxisSound(s)
    ensures Predicted(s, process) + AtLeastMin(variance) > 0.0
    ensures 0.0 < Gain(s, variance, process) < 1.0
  {
    FractionBounds(Predicted(s, process), AtLeastMin(variance));
  }

  /** An update stays between the old estimate and the measurement, and its covariance below the measurement's. */
  lemma UpdateBounds(s: Axis, measurement: real, variance: real, process: real, lo: real, hi: real)
    requires AxisSound(s) && lo <= measurement <= hi
    requires s.initialized ==> lo <= s.estimate <= hi
    ensures var u := UpdateAxis(s, measurement, variance, process);
            u.initialized && lo <= u.estimate <= hi && MIN_VARIANCE <= u.covariance <= AtLeastMin(variance)
  {
    if s.initialized {
      GainStrict(s, variance, process);
      FractionBounds(Predicted(s, process), AtLeastMin(variance));
      var g := Gain(s, variance, process);
      Between(s.estimate, measurement, g, lo, hi);
      assert g * (measurement - s.estimate) == (measurement - s.estimate) * g;
    }
  }

  lemma Reassociate(d: real, g: real, x: real)
    ensures d * (g * x) == (g * d) * x
  {
  }

  /**
   The new estimate is the mean of the old one and the measurement, each weighted by the other's
   variance: the stored covariance grown by the process variance, and the measurement's.
   */
  lemma WeightedMean(s: Axis, measurement: real, variance: real, process: real)
    requires s.initialized && AxisSound(s)
    ensures Weighted(s.covariance + AtLeastMin(process), AtLeastMin(variance), s.estimate, measurement,
                     UpdateAxis(s, measurement, variance, process).estimate)
  {
    var p, r := Predicted(s, process), AtLeastMin(variance);
    var g, d := Gain(s, variance, process), p + r;
    assert g * d == p;
    Reassociate(d, g, measurement - s.estimate);
    assert d * (s.estimate + g * (measurement - s.estimate)) == d * s.estimate + p * (measurement - s.estimate);
  }

  /** x is the mean of a and b, of variances p and r, each weighted by the other's variance. */
  ghost predicate Weighted(p: real, r: real, a: real, b: real, x: real) {
    (p + r) * x == r * a + p * b
  }

  /** w is the resistance of p and r in parallel. */
  ghost predicate InParallel(p: real, r: real, w: real) {
    Product(p + r, w) == Product(p, r)
  }

  ghost predicate FlooredParallel(p: real, r: real, c: real) {
    exists w :: InParallel(p, r, w) && c == if w > MIN_VARIANCE then w else MIN_VARIANCE
  }

  lemma Parallel(p: real, r: real, g: real)
    requires p + r > 0.0 && g == p / (p + r)
    ensures InParallel(p, r, (1.0 - g) * p)
  {
    var d := p + r;
    assert g * d == p;
    assert (1.0 - g) * d == r;
    assert Product(d, (1.0 - g) * p) == ((1.0 - g) * d) * p;
  }

  /** The new covariance combines the two variances as resistors in parallel, down to the floor. */
  lemma CovarianceParallel(s: Axis, measurement: real, variance: real, process: real)
    requires s.initialized && AxisSound(s)
    ensures FlooredParallel(s.covariance + AtLeastMin(process), AtLeastMin(variance),
                            UpdateAxis(s, measurement, variance, process).covariance)
  {
    var g, p := Gain(s, variance, process), s.covariance + AtLeastMin(process);
    var w := (1.0 - g) * p;
    Parallel(p, AtLeastMin(variance), g);
    assert UpdateAxis(s, measurement, variance, process).covariance == AtLeastMin(w);
  }

  /** The variance of a mixture that gives the measurement the weight k. */
  function MixtureVariance(p: real, r: real, k: real): real {
    Product(1.0 - k, 1.0 - k) * p + Product(k, k) * r
  }

  lemma MixtureGap(d: real, g: real, r: real, k: real)
    requires r == d - g * d
    ensures MixtureVariance(g * d, r, k) - (1.0 - g) * (g * d) == d * Product(k - g, k - g)
  {
    var h := g * d;
    assert MixtureVariance(h, r, k) == h - 2.0 * k * h + (k * k) * d;
    assert d * Product(k - g, k - g) == (k * k) * d - 2.0 * k * h + g * h;
  }

  /** No other weight gives a smaller variance than the one the filter keeps before its floor. */
  lemma GainOptimal(s: Axis, variance: real, process: real, k: real)
    requires s.initialized && AxisSound(s)
    ensures var p, r := Predicted(s, process), AtLeastMin(variance);
            (1.0 - Gain(s, variance, process)) * p <= MixtureVariance(p, r, k)
  {
    var p, r := Predicted(s, process), AtLeastMin(variance);
    var g, d := Gain(s, variance, process), p + r;
    assert g * d == p;
    MixtureGap(d, g, r, k);
    SquareSign(k - g);
    Scale(Product(k - g, k - g), d);
  }

  // ---------------------------------------------------------------------------
  // The sample window
  // ---------------------------------------------------------------------------

  /** How many leading samples are too old. */
  function Stale(samples: seq<Time>, now: Time, maxAge: Time): (n: nat)
    ensures n <= |samples|
  {
    if samples == [] || now - samples[0] <= maxAge then 0 else 1 + Stale(samples[1..], now, maxAge)
  }

  function Trim(samples: seq<Time>, now: Time, maxAge: Time, maxPoints: nat): (r: seq<Time>)
    requires maxPoints >= 1
    ensures |r| <= maxPoints - 1
  {
    var young := samples[Stale(samples, now, maxAge)..];
    if |young| > maxPoints - 1 then young[|young| - (maxPoints - 1)..] else young
  }

  lemma {:induction false} StaleIs(samples: seq<Time>, now: Time, maxAge: Time, start: nat)
    requires start <= |samples| && forall i :: 0 <= i < start ==> now - samples[i] > maxAge
    requires start < |samples| ==> now - samples[start] <= maxAge
    ensures Stale(samples, now, maxAge) == start
  {
    if start > 0 {
      StaleIs(samples[1..], now, maxAge, start - 1);
    }
  }

  method TrimKalmanSamples(samples: seq<Time>, now: Time, maxAge: Time, maxPoints: nat) returns (r: seq<Time>)
    requires maxPoints >= 1
    ensures r == Trim(samples, now, maxAge, maxPoints)
    ensures |r| <= |samples| && r == samples[|samples| - |r|..] && |r| <= maxPoints - 1
    ensures |r| < maxPoints - 1 ==> forall i :: 0 <= i < |samples| - |r| ==> now - samples[i] > maxAge
    ensures r != [] ==> exists i :: 0 <= i <= |samples| - |r| && now - samples[i] <= maxAge &&
                                    (|r| < maxPoints - 1 ==> i == |samples| - |r|)
  {
    if |samples| == 0 {
      return [];
    }
    var start := 0;
    while start < |samples| && now - samples[start] > maxAge
      invariant 0 <= start <= |samples|
      invariant forall i :: 0 <= i < start ==> now - samples[i] > maxAge
    {
      start := start + 1;
    }
    StaleIs(samples, now, maxAge, start);
    r := samples;
    if start > 0 {
      r := samples[start..];
    }
    if |r| > maxPoints - 1 {
      r := r[|r| - (maxPoints - 1)..];
    }
  }

  // ---------------------------------------------------------------------------
  // One track
  // ---------------------------------------------------------------------------

  datatype Config = Config(locationTtl: Time, maxPoints: nat, maxAge: Time, emitMinInterval: Time)

  datatype Track = Track(
    crs: string,
    samples: seq<Time>,
    x: Axis,
    y: Axis,
    z: Axis,
    lastDecision: Option<Time>,
    lastEmitted: Option<Time>)

  function NewTrack(crs: string): Track {
    Track(crs, [], FRESH_AXIS, FRESH_AXIS, FRESH_AXIS, None, None)
  }

  type TrackState = Option<Expiring<Track>>

  /** One decoded measurement: its time, the clock, its coordinates and the variances computed for it. */
  datatype Measurement = Measurement(
    at: Time, now: Time, crs: string, x: real, y: real, z: Option<real>,
    varX: real, varY: real, varZ: real, processX: real, processY: real)

  function Loaded(st: TrackState, m: Measurement): Track {
    if st.Some? && st.value.expiresAt > m.now then st.value.value else NewTrack("")
  }

  function InSystem(t: Track, crs: string): Track {
    if t.crs != "" && t.crs != crs then NewTrack(crs) else t.(crs := crs)
  }

  function AfterGap(t: Track, at: Time, maxAge: Time): Track {
    if t.lastDecision.Some? && at - t.lastDecision.value > maxAge then NewTrack(t.crs) else t
  }

  function Windowed(cfg: Config, t: Track, at: Time): Track
    requires cfg.maxPoints >= 1
  {
    var samples := Trim(t.samples, at, cfg.maxAge, cfg.maxPoints);
    if |samples| > 0 && at - samples[|samples| - 1] > cfg.maxAge then NewTrack(t.crs) else t.(samples := samples)
  }

  /** The stored track, or a new one after an expiry, a change of coordinate system or a gap. */
  function Continue(cfg: Config, st: TrackState, m: Measurement): Track
    requires cfg.maxPoints >= 1
  {
    Windowed(cfg, AfterGap(InSystem(Loaded(st, m), m.crs), m.at, cfg.maxAge), m.at)
  }

  predicate Emits(cfg: Config, t: Track, m: Measurement) {
    !(cfg.emitMinInterval > 0 && t.lastEmitted.Some? && m.at - t.lastEmitted.value < cfg.emitMinInterval)
  }

  function Advance(cfg: Config, t: Track, m: Measurement): Track
    requires cfg.maxPoints >= 1
  {
    t.(x := UpdateAxis(t.x, m.x, m.varX, m.processX),
       y := UpdateAxis(t.y, m.y, m.varY, m.processY),
       z := if m.z.Some? then UpdateAxis(t.z, m.z.value, AtLeastMin(m.varZ), AtLeastMin(m.varZ)) else FRESH_AXIS,
       samples := Trim(t.samples + [m.at], m.at, cfg.maxAge, cfg.maxPoints),
       lastDecision := Some(m.at),
       lastEmitted := if Emits(cfg, t, m) then Some(m.at) else t.lastEmitted)
  }

  function TimeToLive(cfg: Config): Time {
    if cfg.locationTtl <= 0 then cfg.maxAge * 2 else cfg.locationTtl
  }

  function Normalize(cfg: Config, st: TrackState, m: Measurement): TrackState
    requires cfg.maxPoints >= 1
  {
    Some(Expiring(Advance(cfg, Continue(cfg, st, m), m), m.now + TimeToLive(cfg)))
  }

  // ---------------------------------------------------------------------------
  // Runs
  // ---------------------------------------------------------------------------

  function Before(cfg: Config, run: seq<Measurement>, n: nat): TrackState
    requires n <= |run| && cfg.maxPoints >= 1
  {
    if n == 0 then None else Normalize(cfg, Before(cfg, run, n - 1), run[n - 1])
  }

  /** The track that measurement k continues. */
  function TrackAt(cfg: Config, run: seq<Measurement>, k: nat): Track
    requires k < |run| && cfg.maxPoints >= 1
  {
    Continue(cfg, Before(cfg, run, k), run[k])
  }

  /** Which measurements continue a track rather than start one anew. */
  ghost function Kept(cfg: Config, run: seq<Measurement>): (flags: seq<bool>)
    requires cfg.maxPoints >= 1
    ensures |flags| == |run|
  {
    seq(|run|, k requires 0 <= k < |run| => TrackAt(cfg, run, k).x.initialized)
  }

  /** The last position before n without a flag, or the first position. */
  function LastUnflagged(flags: seq<bool>, n: nat): (s: nat)
    requires 0 < n <= |flags|
    ensures s < n
  {
    if n == 1 || !flags[n - 1] then n - 1 else LastUnflagged(flags, n - 1)
  }

  /** The measurement before n that last started the track anew. */
  ghost function LastReset(cfg: Config, run: seq<Measurement>, n: nat): (s: nat)
    requires 0 < n <= |run| && cfg.maxPoints >= 1
    ensures s < n
  {
    LastUnflagged(Kept(cfg, run), n)
  }

  ghost predicate TrackSound(t: Track) {
    AxisSound(t.x) && AxisSound(t.y) && AxisSound(t.z) && (t.x.initialized <==> t.y.initialized)
  }

  ghost predicate XWithin(run: seq<Measurement>, s: nat, n: nat, lo: real, hi: real)
    requires s <= n <= |run|
  {
    forall k :: s <= k < n ==> XIn(run, k, lo, hi)
  }

  ghost predicate XIn(run: seq<Measurement>, k: nat, lo: real, hi: real)
    requires k < |run|
  {
    lo <= run[k].x <= hi
  }

  ghost predicate YWithin(run: seq<Measurement>, s: nat, n: nat, lo: real, hi: real)
    requires s <= n <= |run|
  {
    forall k :: s <= k < n ==> YIn(run, k, lo, hi)
  }

  ghost predicate YIn(run: seq<Measurement>, k: nat, lo: real, hi: real)
    requires k < |run|
  {
    lo <= run[k].y <= hi
  }

  lemma ContinueSound(cfg: Config, st: TrackState, m: Measurement)
    requires cfg.maxPoints >= 1 && (st.Some? ==> TrackSound(st.value.value))
    ensures var t := Continue(cfg, st, m);
            && TrackSound(t) && (t.x.initialized ==> st.Some?)
            && (t.x.initialized ==> t.x == st.value.value.x && t.y == st.value.value.y)
            && (t.z.initialized ==> st.Some? && t.z == st.value.value.z)
  {
  }

  ghost predicate XEstimateIn(st: TrackState, lo: real, hi: real) {
    st.Some? && st.value.value.x.initialized && lo <= st.value.value.x.estimate <= hi
  }

  lemma XStep(cfg: Config, run: seq<Measurement>, n: nat, lo: real, hi: real)
    requires n < |run| && cfg.maxPoints >= 1 && XIn(run, n, lo, hi)
    requires TrackAt(cfg, run, n).x.initialized ==> XEstimateIn(Before(cfg, run, n), lo, hi)
    ensures XEstimateIn(Before(cfg, run, n + 1), lo, hi)
  {
    RunSound(cfg, run, n);
    ContinueSound(cfg, Before(cfg, run, n), run[n]);
    UpdateBounds(TrackAt(cfg, run, n).x, run[n].x, run[n].varX, run[n].processX, lo, hi);
  }

  /** One step of an estimate: it fits afterwards if the measurement fits and, when continued, it fitted before. */
  ghost predicate Carries(flags: seq<bool>, fits: seq<bool>, good: seq<bool>, k: nat)
    requires |fits| == |flags| && |good| == |flags| + 1
  {
    k < |flags| && (fits[k] && (flags[k] ==> good[k]) ==> good[k + 1])
  }

  /** If all measurements since the last start fit, so does the estimate. */
  lemma {:induction false} CarriedSince(flags: seq<bool>, fits: seq<bool>, good: seq<bool>, n: nat)
    requires 0 < n <= |flags| == |fits| && |good| == |flags| + 1 && !flags[0]
    requires forall k :: 0 <= k < n ==> Carries(flags, fits, good, k)
    ensures (forall k :: LastUnflagged(flags, n) <= k < n ==> fits[k]) ==> good[n]
    decreases n
  {
    assert Carries(flags, fits, good, n - 1);
    if n > 1 && flags[n - 1] {
      CarriedSince(flags, fits, good, n - 1);
    }
  }

  ghost function XFits(run: seq<Measurement>, lo: real, hi: real): (fits: seq<bool>)
    ensures |fits| == |run|
  {
    seq(|run|, k requires 0 <= k < |run| => XIn(run, k, lo, hi))
  }

  ghost function XGood(cfg: Config, run: seq<Measurement>, lo: real, hi: real): (good: seq<bool>)
    requires cfg.maxPoints >= 1
    ensures |good| == |run| + 1
  {
    seq(|run| + 1, k requires 0 <= k <= |run| => XEstimateIn(Before(cfg, run, k), lo, hi))
  }

  lemma XCarries(cfg: Config, run: seq<Measurement>, k: nat, lo: real, hi: real)
    requires k < |run| && cfg.maxPoints >= 1
    ensures Carries(Kept(cfg, run), XFits(run, lo, hi), XGood(cfg, run, lo, hi), k)
  {
    if XFits(run, lo, hi)[k] && (Kept(cfg, run)[k] ==> XGood(cfg, run, lo, hi)[k]) {
      XStep(cfg, run, k, lo, hi);
    }
  }

  /** The x estimate stays within the x measurements taken since the track last started anew. */
  lemma XWithinMeasurements(cfg: Config, run: seq<Measurement>, n: nat, lo: real, hi: real)
    requires 0 < n <= |run| && cfg.maxPoints >= 1
    ensures XWithin(run, LastReset(cfg, run, n), n, lo, hi) ==> XEstimateIn(Before(cfg, run, n), lo, hi)
  {
    forall k | 0 <= k < n ensures Carries(Kept(cfg, run), XFits(run, lo, hi), XGood(cfg, run, lo, hi), k) {
      XCarries(cfg, run, k, lo, hi);
    }
    CarriedSince(Kept(cfg, run), XFits(run, lo, hi), XGood(cfg, run, lo, hi), n);
    assert XWithin(run, LastReset(cfg, run, n), n, lo, hi) ==>
      forall k :: LastReset(cfg, run, n) <= k < n ==> XFits(run, lo, hi)[k];
  }

  ghost predicate YEstimateIn(st: TrackState, lo: real, hi: real) {
    st.Some? && st.value.value.y.initialized && lo <= st.value.value.y.estimate <= hi
  }

  lemma YStep(cfg: Config, run: seq<Measurement>, n: nat, lo: real, hi: real)
    requires n < |run| && cfg.maxPoints >= 1 && YIn(run, n, lo, hi)
    requires TrackAt(cfg, run, n).x.initialized ==> YEstimateIn(Before(cfg, run, n), lo, hi)
    ensures YEstimateIn(Before(cfg, run, n + 1), lo, hi)
  {
    RunSound(cfg, run, n);
    ContinueSound(cfg, Before(cfg, run, n), run[n]);
    UpdateBounds(TrackAt(cfg, run, n).y, run[n].y, run[n].varY, run[n].processY, lo, hi);
  }

  ghost function YFits(run: seq<Measurement>, lo: real, hi: real): (fits: seq<bool>)
    ensures |fits| == |run|
  {
    seq(|run|, k requires 0 <= k < |run| => YIn(run, k, lo, hi))
  }

  ghost function YGood(cfg: Config, run: seq<Measurement>, lo: real, hi: real): (good: seq<bool>)
    requires cfg.maxPoints >= 1
    ensures |good| == |run| + 1
  {
    seq(|run| + 1, k requires 0 <= k <= |run| => YEstimateIn(Before(cfg, run, k), lo, hi))
  }

  lemma YCarries(cfg: Config, run: seq<Measurement>, k: nat, lo: real, hi: real)
    requires k < |run| && cfg.maxPoints >= 1
    ensures Carries(Kept(cfg, run), YFits(run, lo, hi), YGood(cfg, run, lo, hi), k)
  {
    if YFits(run, lo, hi)[k] && (Kept(cfg, run)[k] ==> YGood(cfg, run, lo, hi)[k]) {
      YStep(cfg, run, k, lo, hi);
    }
  }

  /** The y estimate stays within the y measurements taken since the track last started anew. */
  lemma YWithinMeasurements(cfg: Config, run: seq<Measurement>, n: nat, lo: real, hi: real)
    requires 0 < n <= |run| && cfg.maxPoints >= 1
    ensures YWithin(run, LastReset(cfg, run, n), n, lo, hi) ==> YEstimateIn(Before(cfg, run, n), lo, hi)
  {
    forall k | 0 <= k < n ensures Carries(Kept(cfg, run), YFits(run, lo, hi), YGood(cfg, run, lo, hi), k) {
      YCarries(cfg, run, k, lo, hi);
    }
    CarriedSince(Kept(cfg, run), YFits(run, lo, hi), YGood(cfg, run, lo, hi), n);
    assert YWithin(run, LastReset(cfg, run, n), n, lo, hi) ==>
      forall k :: LastReset(cfg, run, n) <= k < n ==> YFits(run, lo, hi)[k];
  }

  /** After every measurement the covariances lie between the floor and that measurement's own variance. */
  lemma CovarianceBounds(cfg: Config, run: seq<Measurement>, n: nat)
    requires 0 < n <= |run| && cfg.maxPoints >= 1
    ensures var t, m := Before(cfg, run, n).value.value, run[n - 1];
            && MIN_VARIANCE <= t.x.covariance <= AtLeastMin(m.varX)
            && MIN_VARIANCE <= t.y.covariance <= AtLeastMin(m.varY)
            && (m.z.Some? ==> MIN_VARIANCE <= t.z.covariance <= AtLeastMin(m.varZ))
  {
    var m, t := run[n - 1], TrackAt(cfg, run, n - 1);
    RunSound(cfg, run, n - 1);
    ContinueSound(cfg, Before(cfg, run, n - 1), m);
    CovarianceAfter(t.x, m.x, m.varX, m.processX);
    CovarianceAfter(t.y, m.y, m.varY, m.processY);
    if m.z.Some? {
      CovarianceAfter(t.z, m.z.value, AtLeastMin(m.varZ), AtLeastMin(m.varZ));
    }
  }

  lemma CovarianceAfter(s: Axis, measurement: real, variance: real, process: real)
    requires AxisSound(s)
    ensures MIN_VARIANCE <= UpdateAxis(s, measurement, variance, process).covariance <= AtLeastMin(variance)
  {
    var lo := if s.initialized && s.estimate < measurement then s.estimate else measurement;
    var hi := if s.initialized && s.estimate > measurement then s.estimate else measurement;
    UpdateBounds(s, measurement, variance, process, lo, hi);
  }

  lemma AdvanceSound(cfg: Config, t: Track, m: Measurement)
    requires cfg.maxPoints >= 1 && TrackSound(t)
    ensures TrackSound(Advance(cfg, t, m)) && Advance(cfg, t, m).x.initialized
  {
    AxisStaysSound(t.x, m.x, m.varX, m.processX);
    AxisStaysSound(t.y, m.y, m.varY, m.processY);
    if m.z.Some? {
      AxisStaysSound(t.z, m.z.value, AtLeastMin(m.varZ), AtLeastMin(m.varZ));
    }
  }

  lemma AxisStaysSound(s: Axis, measurement: real, variance: real, process: real)
    requires AxisSound(s)
    ensures var u := UpdateAxis(s, measurement, variance, process); u.initialized && AxisSound(u)
  {
    if s.initialized {
      GainStrict(s, variance, process);
    }
  }

  lemma {:induction false} RunSound(cfg: Config, run: seq<Measurement>, n: nat)
    requires n <= |run| && cfg.maxPoints >= 1
    ensures var st := Before(cfg, run, n);
            st.Some? <==> n > 0
    ensures var st := Before(cfg, run, n);
            st.Some? ==> TrackSound(st.value.value) && st.value.value.x.initialized &&
                         |st.value.value.samples| <= cfg.maxPoints - 1 &&
                         st.value.value.lastDecision == Some(run[n - 1].at)
    decreases n
  {
    if n > 0 {
      RunSound(cfg, run, n - 1);
      ContinueSound(cfg, Before(cfg, run, n - 1), run[n - 1]);
      AdvanceSound(cfg, TrackAt(cfg, run, n - 1), run[n - 1]);
    }
  }

  // ---------------------------------------------------------------------------
  // The vertical axis and the throttle
  // ---------------------------------------------------------------------------

  /** The measurement before n that last started the vertical axis anew. */
  function LastVerticalReset(cfg: Config, run: seq<Measurement>, n: nat): (s: nat)
    requires 0 < n <= |run| && cfg.maxPoints >= 1
    ensures s < n
  {
    if n == 1 || !TrackAt(cfg, run, n - 1).z.initialized then n - 1 else LastVerticalReset(cfg, run, n - 1)
  }

  ghost predicate ZWithin(run: seq<Measurement>, s: nat, n: nat, lo: real, hi: real)
    requires s <= n <= |run|
  {
    forall k :: s <= k < n ==> run[k].z.Some? ==> lo <= run[k].z.value <= hi
  }

  lemma {:induction false} VerticalWithinMeasurements(cfg: Config, run: seq<Measurement>, n: nat, lo: real, hi: real)
    requires 0 < n <= |run| && cfg.maxPoints >= 1 && run[n - 1].z.Some?
    ensures ZWithin(run, LastVerticalReset(cfg, run, n), n, lo, hi) ==>
              var z := Before(cfg, run, n).value.value.z; z.initialized && lo <= z.estimate <= hi
    decreases n
  {
    var m, t := run[n - 1], TrackAt(cfg, run, n - 1);
    RunSound(cfg, run, n - 1);
    ContinueSound(cfg, Before(cfg, run, n - 1), m);
    if t.z.initialized {
      VerticalWithinMeasurements(cfg, run, n - 1, lo, hi);
    }
    if ZWithin(run, LastVerticalReset(cfg, run, n), n, lo, hi) {
      UpdateBounds(t.z, m.z.value, AtLeastMin(m.varZ), AtLeastMin(m.varZ), lo, hi);
    }
  }

  ghost predicate EmittedAt(cfg: Config, run: seq<Measurement>, k: nat)
    requires cfg.maxPoints >= 1
  {
    k < |run| && Emits(cfg, TrackAt(cfg, run, k), run[k])
  }

  function EmissionTime(st: TrackState): Option<Time> {
    if st.Some? then st.value.value.lastEmitted else None
  }

  /** A track that does not start anew keeps its emission time; one that does has none. */
  lemma ContinueKeepsEmission(cfg: Config, st: TrackState, m: Measurement)
    requires cfg.maxPoints >= 1
    ensures var t := Continue(cfg, st, m);
            && (t.x.initialized || t.lastEmitted.Some? ==> t.lastEmitted == EmissionTime(st))
            && (t.lastEmitted.None? ==> Emits(cfg, t, m))
  {
  }

  lemma EmissionStep(cfg: Config, st: TrackState, m: Measurement)
    requires cfg.maxPoints >= 1
    ensures EmissionTime(Normalize(cfg, st, m)) ==
            if Emits(cfg, Continue(cfg, st, m), m) then Some(m.at) else EmissionTime(st)
  {
    ContinueKeepsEmission(cfg, st, m);
  }

  /** Which measurements were emitted. */
  ghost function Emissions(cfg: Config, run: seq<Measurement>): (flags: seq<bool>)
    requires cfg.maxPoints >= 1
    ensures |flags| == |run|
  {
    seq(|run|, k requires 0 <= k < |run| => EmittedAt(cfg, run, k))
  }

  /** The stored emission time before each measurement and after the last. */
  ghost function EmissionTimes(cfg: Config, run: seq<Measurement>): (times: seq<Option<Time>>)
    requires cfg.maxPoints >= 1
    ensures |times| == |run| + 1
  {
    seq(|run| + 1, k requires 0 <= k <= |run| => EmissionTime(Before(cfg, run, k)))
  }

  ghost predicate TimeStep(run: seq<Measurement>, flags: seq<bool>, times: seq<Option<Time>>, k: nat)
    requires |flags| == |run| && |times| == |run| + 1
  {
    k < |run| && times[k + 1] == if flags[k] then Some(run[k].at) else times[k]
  }

  lemma EmissionTimeStep(cfg: Config, run: seq<Measurement>, k: nat)
    requires cfg.maxPoints >= 1 && k < |run|
    ensures TimeStep(run, Emissions(cfg, run), EmissionTimes(cfg, run), k)
  {
    EmissionStep(cfg, Before(cfg, run, k), run[k]);
  }

  /** The time of the last emission before measurement n. */
  function LastEmission(run: seq<Measurement>, flags: seq<bool>, n: nat): Option<Time>
    requires n <= |flags| == |run|
  {
    if n == 0 then None else if flags[n - 1] then Some(run[n - 1].at) else LastEmission(run, flags, n - 1)
  }

  lemma {:induction false} TimesAreLastEmissions(run: seq<Measurement>, flags: seq<bool>, times: seq<Option<Time>>,
                                                 n: nat)
    requires n <= |flags| == |run| && |times| == |run| + 1 && times[0] == None
    requires forall k :: 0 <= k < n ==> TimeStep(run, flags, times, k)
    ensures times[n] == LastEmission(run, flags, n)
    decreases n
  {
    if n > 0 {
      TimesAreLastEmissions(run, flags, times, n - 1);
      assert TimeStep(run, flags, times, n - 1);
    }
  }

  /** A track stores the time of the last emission of its key. */
  lemma EmissionHistory(cfg: Config, run: seq<Measurement>, n: nat)
    requires cfg.maxPoints >= 1 && n <= |run|
    ensures EmissionTime(Before(cfg, run, n)) == LastEmission(run, Emissions(cfg, run), n)
  {
    forall k | 0 <= k < n ensures TimeStep(run, Emissions(cfg, run), EmissionTimes(cfg, run), k) {
      EmissionTimeStep(cfg, run, k);
    }
    TimesAreLastEmissions(run, Emissions(cfg, run), EmissionTimes(cfg, run), n);
  }

  lemma {:induction false} LastEmissionIs(run: seq<Measurement>, flags: seq<bool>, m: nat, n: nat)
    requires m < n <= |flags| == |run| && flags[m] && forall k :: m < k < n ==> !flags[k]
    ensures LastEmission(run, flags, n) == Some(run[m].at)
    decreases n
  {
    if m < n - 1 {
      LastEmissionIs(run, flags, m, n - 1);
    }
  }

  /** Measurements m and n were emitted, none between them was, and the track did not start anew at n. */
  ghost predicate ConsecutiveEmissions(cfg: Config, run: seq<Measurement>, m: nat, n: nat)
    requires m < n < |run| && cfg.maxPoints >= 1
  {
    var flags := Emissions(cfg, run);
    flags[m] && flags[n] && (forall k :: m < k < n ==> !flags[k]) && TrackAt(cfg, run, n).x.initialized
  }

  /** Consecutive emissions of one track are at least the configured interval apart. */
  lemma EmissionsApart(cfg: Config, run: seq<Measurement>, m: nat, n: nat)
    requires m < n < |run| && cfg.maxPoints >= 1 && cfg.emitMinInterval > 0
    ensures ConsecutiveEmissions(cfg, run, m, n) ==> run[n].at - run[m].at >= cfg.emitMinInterval
  {
    if ConsecutiveEmissions(cfg, run, m, n) {
      LastEmissionIs(run, Emissions(cfg, run), m, n);
      EmissionHistory(cfg, run, n);
      ContinueKeepsEmission(cfg, Before(cfg, run, n), run[n]);
      assert EmittedAt(cfg, run, n);
    }
  }

  // ---------------------------------------------------------------------------
  // When a track starts anew, and when a measurement is emitted
  // ---------------------------------------------------------------------------

  /**
   Measurement n continues the track of the one before it: that one is still stored, in the
   same coordinate system, and not older than the maximal age.
   */
  predicate Continued(cfg: Config, run: seq<Measurement>, n: nat)
    requires n < |run|
  {
    n > 0 &&
    var m, prev := run[n], run[n - 1];
    && m.now < prev.now + (if cfg.locationTtl > 0 then cfg.locationTtl else 2 * cfg.maxAge)
    && (prev.crs == m.crs || prev.crs == "") && m.at - prev.at <= cfg.maxAge
  }

  /** The newest sample kept is the last measurement. */
  lemma {:induction false} NewestKept(samples: seq<Time>, at: Time, maxAge: Time, maxPoints: nat)
    requires maxPoints >= 1
    ensures var r := Trim(samples + [at], at, maxAge, maxPoints); r != [] ==> r[|r| - 1] == at
  {
    var all := samples + [at];
    var young := all[Stale(all, at, maxAge)..];
    if young != [] {
      assert young[|young| - 1] == at;
    }
  }

  lemma TrimSuffix(samples: seq<Time>, now: Time, maxAge: Time, maxPoints: nat)
    requires maxPoints >= 1
    ensures var r := Trim(samples, now, maxAge, maxPoints);
            r != [] ==> samples != [] && r[|r| - 1] == samples[|samples| - 1]
  {
  }

  /** What is stored of the last measurement. */
  lemma StoredOf(cfg: Config, run: seq<Measurement>, n: nat)
    requires 0 < n <= |run| && cfg.maxPoints >= 1
    ensures var st, m := Before(cfg, run, n), run[n - 1];
            && st.Some? && st.value.value.x.initialized && st.value.value.crs == m.crs
            && st.value.value.lastDecision == Some(m.at)
            && st.value.expiresAt == m.now + (if cfg.locationTtl > 0 then cfg.locationTtl else 2 * cfg.maxAge)
            && (st.value.value.samples != [] ==> st.value.value.samples[|st.value.value.samples| - 1] == m.at)
  {
    RunSound(cfg, run, n);
    var t, m := TrackAt(cfg, run, n - 1), run[n - 1];
    NewestKept(t.samples, m.at, cfg.maxAge, cfg.maxPoints);
  }

  /** The stored track is continued as it is, or a new one is begun. */
  lemma ContinueIs(cfg: Config, st: TrackState, m: Measurement, d: Time)
    requires cfg.maxPoints >= 1 && st.Some? && st.value.value.lastDecision == Some(d)
    requires var ts := st.value.value.samples; ts != [] ==> ts[|ts| - 1] == d
    ensures var t := st.value.value;
            Continue(cfg, st, m) ==
            if m.now < st.value.expiresAt && (t.crs == m.crs || t.crs == "") && m.at - d <= cfg.maxAge
            then t.(crs := m.crs, samples := Trim(t.samples, m.at, cfg.maxAge, cfg.maxPoints)) else NewTrack(m.crs)
  {
    TrimSuffix(st.value.value.samples, m.at, cfg.maxAge, cfg.maxPoints);
  }

  /**
   A measurement continues the stored track with its axes and emission time exactly if the one
   before it has not expired, was in the same system and is not too old; otherwise a new track begins.
   */
  lemma StartsAnewIff(cfg: Config, run: seq<Measurement>, n: nat)
    requires n < |run| && cfg.maxPoints >= 1
    ensures Before(cfg, run, n).None? ==> n == 0
    ensures TrackAt(cfg, run, n) ==
            if !Continued(cfg, run, n) then NewTrack(run[n].crs)
            else
              var t := Before(cfg, run, n).value.value;
              t.(crs := run[n].crs, samples := Trim(t.samples, run[n].at, cfg.maxAge, cfg.maxPoints))
  {
    if n > 0 {
      StoredOf(cfg, run, n);
      ContinueIs(cfg, Before(cfg, run, n), run[n], run[n - 1].at);
    }
  }

  lemma KeptIff(cfg: Config, run: seq<Measurement>, n: nat)
    requires n < |run| && cfg.maxPoints >= 1
    ensures TrackAt(cfg, run, n).x.initialized <==> Continued(cfg, run, n)
  {
    StartsAnewIff(cfg, run, n);
    if n > 0 {
      StoredOf(cfg, run, n);
    }
  }

  lemma HeightStored(cfg: Config, t: Track, m: Measurement)
    requires cfg.maxPoints >= 1
    ensures Advance(cfg, t, m).z.initialized <==> m.z.Some?
  {
  }

  /** The vertical axis goes on exactly if the track does and the measurement before had a height. */
  lemma VerticalKeptIff(cfg: Config, run: seq<Measurement>, n: nat)
    requires n < |run| && cfg.maxPoints >= 1
    ensures TrackAt(cfg, run, n).z.initialized <==> Continued(cfg, run, n) && run[n - 1].z.Some?
  {
    StartsAnewIff(cfg, run, n);
    if n > 0 {
      HeightStored(cfg, TrackAt(cfg, run, n - 1), run[n - 1]);
    }
  }

  /** u is s after one measurement: the weighted mean, with the two variances in parallel down to the floor. */
  ghost predicate Mixes(s: Axis, u: Axis, measurement: real, variance: real, process: real) {
    var p, r := s.covariance + AtLeastMin(process), AtLeastMin(variance);
    u.initialized && Weighted(p, r, s.estimate, measurement, u.estimate) && FlooredParallel(p, r, u.covariance)
  }

  /** u starts with the measurement. */
  ghost predicate Begins(u: Axis, measurement: real, variance: real) {
    u == Axis(measurement, AtLeastMin(variance), true)
  }

  lemma UpdateMixes(s: Axis, measurement: real, variance: real, process: real)
    requires AxisSound(s)
    ensures var u := UpdateAxis(s, measurement, variance, process);
            if s.initialized then Mixes(s, u, measurement, variance, process) else Begins(u, measurement, variance)
  {
    if s.initialized {
      WeightedMean(s, measurement, variance, process);
      CovarianceParallel(s, measurement, variance, process);
    }
  }

  /** The floor of a variance has no further floor. */
  lemma MixesFloored(s: Axis, u: Axis, measurement: real, v: real)
    requires Mixes(s, u, measurement, AtLeastMin(v), AtLeastMin(v))
    ensures Mixes(s, u, measurement, v, v)
  {
    assert AtLeastMin(AtLeastMin(v)) == AtLeastMin(v);
  }

  /** What a measurement makes of each axis, with the variances of that axis. */
  lemma AdvanceMixes(cfg: Config, t: Track, m: Measurement)
    requires cfg.maxPoints >= 1 && TrackSound(t)
    ensures var u := Advance(cfg, t, m);
            && (if t.x.initialized then Mixes(t.x, u.x, m.x, m.varX, m.processX) else Begins(u.x, m.x, m.varX))
            && (if t.y.initialized then Mixes(t.y, u.y, m.y, m.varY, m.processY) else Begins(u.y, m.y, m.varY))
            && (m.z.None? ==> !u.z.initialized)
            && (m.z.Some? && t.z.initialized ==> Mixes(t.z, u.z, m.z.value, m.varZ, m.varZ))
            && (m.z.Some? && !t.z.initialized ==> Begins(u.z, m.z.value, m.varZ))
  {
    UpdateMixes(t.x, m.x, m.varX, m.processX);
    UpdateMixes(t.y, m.y, m.varY, m.processY);
    if m.z.Some? {
      UpdateMixes(t.z, m.z.value, AtLeastMin(m.varZ), AtLeastMin(m.varZ));
      if t.z.initialized {
        MixesFloored(t.z, UpdateAxis(t.z, m.z.value, AtLeastMin(m.varZ), AtLeastMin(m.varZ)), m.z.value, m.varZ);
      }
    }
  }

  lemma {:induction false} UnflaggedIs(flags: seq<bool>, n: nat)
    requires 0 < n <= |flags| && !flags[0]
    ensures var s := LastUnflagged(flags, n); !flags[s] && forall k :: s < k < n ==> flags[k]
    decreases n
  {
    if n > 1 && flags[n - 1] {
      UnflaggedIs(flags, n - 1);
    }
  }

  /** The last start before n did not continue the measurement before it, and every later one did. */
  lemma LastResetIs(cfg: Config, run: seq<Measurement>, n: nat)
    requires 0 < n <= |run| && cfg.maxPoints >= 1
    ensures var s := LastReset(cfg, run, n);
            !Continued(cfg, run, s) && forall k :: s < k < n ==> Continued(cfg, run, k)
  {
    var flags := Kept(cfg, run);
    forall k: nat | k < n ensures flags[k] <==> Continued(cfg, run, k) {
      KeptIff(cfg, run, k);
    }
    UnflaggedIs(flags, n);
  }

  /**
   A measurement is emitted exactly if nothing is throttled, the track starts anew at it, or
   the last emission of the key lies at least the interval back.
   */
  lemma EmittedIff(cfg: Config, run: seq<Measurement>, n: nat)
    requires n < |run| && cfg.maxPoints >= 1
    ensures var last := LastEmission(run, Emissions(cfg, run), n);
            EmittedAt(cfg, run, n) <==>
            cfg.emitMinInterval <= 0 || !Continued(cfg, run, n) || last.None? ||
            run[n].at - last.value >= cfg.emitMinInterval
  {
    StartsAnewIff(cfg, run, n);
    KeptIff(cfg, run, n);
    EmissionHistory(cfg, run, n);
  }

  // ---------------------------------------------------------------------------
  // The stage as the code runs it
  // ---------------------------------------------------------------------------

  /** Load the track and start it anew after an expiry, a change of coordinate system or a gap. */
  method ContinueTrack(cfg: Config, stored: TrackState, m: Measurement) returns (t: Track)
    requires cfg.maxPoints >= 1
    ensures t == Continue(cfg, stored, m)
  {
    t := NewTrack("");
    if stored.Some? && stored.value.expiresAt > m.now {
      t := stored.value.value;
    }
    assert t == Loaded(stored, m);
    if t.crs != "" && t.crs != m.crs {
      t := NewTrack("");
    }
    t := t.(crs := m.crs);
    assert t == InSystem(Loaded(stored, m), m.crs);
    if t.lastDecision.Some? && m.at - t.lastDecision.value > cfg.maxAge {
      t := NewTrack(t.crs);
    }
    t := WindowTrack(cfg, t, m.at);
  }

  method WindowTrack(cfg: Config, track: Track, at: Time) returns (t: Track)
    requires cfg.maxPoints >= 1
    ensures t == Windowed(cfg, track, at)
  {
    var samples := TrimKalmanSamples(track.samples, at, cfg.maxAge, cfg.maxPoints);
    t := track.(samples := samples);
    if |samples| > 0 && at - samples[|samples| - 1] > cfg.maxAge {
      t := NewTrack(t.crs);
    }
  }

  /** Filter the measurement, remember it and decide whether to emit. */
  method AdvanceTrack(cfg: Config, track: Track, m: Measurement) returns (t: Track, emit: bool)
    requires cfg.maxPoints >= 1
    ensures t == Advance(cfg, track, m) && emit == Emits(cfg, track, m)
  {
    t := track.(x := UpdateAxis(track.x, m.x, m.varX, m.processX), y := UpdateAxis(track.y, m.y, m.varY, m.processY));
    if m.z.Some? {
      var varZ := AtLeastMin(m.varZ);
      t := t.(z := UpdateAxis(t.z, m.z.value, varZ, varZ));
    } else {
      t := t.(z := FRESH_AXIS);
    }
    var samples := TrimKalmanSamples(t.samples + [m.at], m.at, cfg.maxAge, cfg.maxPoints);
    t := t.(samples := samples, lastDecision := Some(m.at));
    emit := true;
    if cfg.emitMinInterval > 0 && t.lastEmitted.Some? && m.at - t.lastEmitted.value < cfg.emitMinInterval {
      emit := false;
    }
    if emit {
      t := t.(lastEmitted := Some(m.at));
    }
  }

  class KalmanStage {
    const cfg: Config
    var tracks: map<string, Expiring<Track>>

    constructor (cfg: Config)
      ensures this.cfg == cfg && tracks == map[]
    {
      this.cfg, tracks := cfg, map[];
    }

    function Stored(key: string): TrackState
      reads this
    {
      if key in tracks then Some(tracks[key]) else None
    }

    method NormalizeTrackable(key: string, m: Measurement) returns (x: real, y: real, emit: bool)
      requires cfg.maxPoints >= 1
      modifies this
      ensures Stored(key) == Normalize(cfg, old(Stored(key)), m)
      ensures forall k :: k != key ==> Stored(k) == old(Stored(k))
      ensures emit == Emits(cfg, Continue(cfg, old(Stored(key)), m), m)
      ensures x == Stored(key).value.value.x.estimate && y == Stored(key).value.value.y.estimate
    {
      var t := ContinueTrack(cfg, if key in tracks then Some(tracks[key]) else None, m);
      t, emit := AdvanceTrack(cfg, t, m);
      var ttl := cfg.locationTtl;
      if ttl <= 0 {
        ttl := cfg.maxAge * 2;
      }
      tracks := tracks[key := Expiring(t, m.now + ttl)];
      x, y := t.x.estimate, t.y.estimate;
    }
  }
}
