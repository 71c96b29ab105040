/**
 Replaying a logged location stream: gaps between consecutive locations of one object are
 filled with interpolated ones, and a preview predicts the size of the result without
 building it. Time is counted in integer ticks.
 */
module Replay {
  import opened Wrappers
  import Geometry = RingGeometry

  type Time = int

  datatype Error = EmptyLog | NegativeRate | NonPositiveAcceleration | BadPosition | EmptySchedule

  datatype Result<T> = Ok(value: T) | Err(error: Error)

  /** No interpolation, or one location per interval; a rate below zero is an error to most callers. */
  datatype Rate = Negative | Off | Every(interval: Time)

  predicate ValidRate(rate: Rate) {
    rate.Every? ==> rate.interval > 0
  }

  type Point = Geometry.Point

  /** `point` is None when the position is not a point with two coordinates. */
  datatype Location = Location(
    trackables: seq<string>, source: string, provider: string,
    point: Option<Point>, speed: Option<real>, course: Option<real>)

  datatype Key = ByTrackable(id: string) | BySource(name: string) | ByPlace(provider: string, point: Point)

  datatype Logged = Logged(order: int, timestamp: Time, location: Location)

  datatype Expanded = Expanded(order: real, timestamp: Time, location: Location, synthetic: bool)

  function ObjectKey(l: Location): Option<Key> {
    if l.trackables != [] then Some(ByTrackable(l.trackables[0]))
    else if l.source != "" then Some(BySource(l.source))
    else if l.point.None? then None
    else Some(ByPlace(if l.provider == "" then "provider" else l.provider, l.point.value))
  }

  /** Whether a location names a trackable, only a source, or neither. */
  predicate NamesSourceOnly(l: Location) {
    l.trackables == [] && l.source != ""
  }

  predicate NamesNothing(l: Location) {
    l.trackables == [] && l.source == ""
  }

  /**
   Two locations are of one object exactly if they share the first trackable, or name none and
   share the source, or name neither and share provider and point.
   */
  lemma SameObjectIff(a: Location, b: Location)
    ensures ObjectKey(a).Some? && ObjectKey(a) == ObjectKey(b) <==>
            || (a.trackables != [] && b.trackables != [] && a.trackables[0] == b.trackables[0])
            || (NamesSourceOnly(a) && NamesSourceOnly(b) && a.source == b.source)
            || (NamesNothing(a) && NamesNothing(b) && a.point.Some? && a.point == b.point &&
                (a.provider == b.provider || {a.provider, b.provider} == {"", "provider"}))
    ensures ObjectKey(a).None? <==> NamesNothing(a) && a.point.None?
  {
    assert a.provider in {a.provider, b.provider} && b.provider in {a.provider, b.provider};
    assert "" in {"", "provider"} && "provider" in {"", "provider"};
    if NamesNothing(a) && NamesNothing(b) {
      if {a.provider, b.provider} == {"", "provider"} {
        assert a.provider in {"", "provider"} && b.provider in {"", "provider"};
      }
      if a.provider != b.provider && (a.provider == "" || a.provider == "provider") &&
         (b.provider == "" || b.provider == "provider") {
        assert {a.provider, b.provider} == {"", "provider"};
      }
    }
  }

  // ---------------------------------------------------------------------------
  // Interpolated locations
  // ---------------------------------------------------------------------------

  function Portion(d: real, f: real): real {
    d * f
  }

  function Blend(a: real, b: real, f: real): real {
    a + Portion(b - a, f)
  }

  function BlendOptional(a: Option<real>, b: Option<real>, f: real): Option<real> {
    if a.Some? && b.Some? then Some(Blend(a.value, b.value, f)) else b
  }

  function Interpolated(a: Location, b: Location, f: real): Location
    requires a.point.Some? && b.point.Some?
  {
    b.(point := Some(Geometry.Point(Blend(a.point.value.x, b.point.value.x, f),
                                    Blend(a.point.value.y, b.point.value.y, f))),
       speed := BlendOptional(a.speed, b.speed, f),
       course := BlendOptional(a.course, b.course, f))
  }

  function Real(item: Logged): Expanded {
    Expanded(item.order as real, item.timestamp, item.location, false)
  }

  function Synthetic(p: Logged, item: Logged, offset: Time): Expanded
    requires 0 < offset < item.timestamp - p.timestamp
    requires p.location.point.Some? && item.location.point.Some?
  {
    var f := offset as real / (item.timestamp - p.timestamp) as real;
    Expanded(p.order as real + f, p.timestamp + offset, Interpolated(p.location, item.location, f), true)
  }

  lemma BlendBetween(a: real, b: real, f: real)
    requires 0.0 < f < 1.0
    ensures a <= b ==> a <= Blend(a, b, f) <= b
    ensures b <= a ==> b <= Blend(a, b, f) <= a
  {
    if a <= b {
      Shrink(b - a, f);
    } else {
      ShrinkNegative(b - a, f);
    }
  }

  lemma Shrink(d: real, f: real)
    requires d >= 0.0 && 0.0 < f < 1.0
    ensures 0.0 <= Portion(d, f) <= d
  {
  }

  lemma ShrinkNegative(d: real, f: real)
    requires d <= 0.0 && 0.0 < f < 1.0
    ensures d <= Portion(d, f) <= 0.0
  {
  }

  lemma FractionBetween(a: int, b: int)
    requires 0 < a < b
    ensures 0.0 < a as real / b as real < 1.0
  {
    var f := a as real / b as real;
    assert f * b as real == a as real;
  }

  /** An interpolated location belongs to the same object and lies in the box spanned by its neighbours. */
  lemma SyntheticBelongs(p: Logged, item: Logged, offset: Time, k: Key)
    requires 0 < offset < item.timestamp - p.timestamp
    requires p.location.point.Some? && item.location.point.Some?
    requires ObjectKey(p.location) == Some(k) && ObjectKey(item.location) == Some(k)
    ensures var e := Synthetic(p, item, offset);
            && ObjectKey(e.location) == Some(k)
            && p.order as real < e.order < p.order as real + 1.0
            && e.location.point.Some?
            && Between(p.location.point.value.x, e.location.point.value.x, item.location.point.value.x)
            && Between(p.location.point.value.y, e.location.point.value.y, item.location.point.value.y)
  {
    var f := offset as real / (item.timestamp - p.timestamp) as real;
    FractionBetween(offset, item.timestamp - p.timestamp);
    BlendBetween(p.location.point.value.x, item.location.point.value.x, f);
    BlendBetween(p.location.point.value.y, item.location.point.value.y, f);
  }

  ghost predicate BetweenOptional(a: Option<real>, m: Option<real>, b: Option<real>) {
    if a.Some? && b.Some? then m.Some? && Between(a.value, m.value, b.value) else m == b
  }

  /**
   Speed and course lie between those of the neighbours when both have them; everything
   else is the later neighbour's.
   */
  lemma SyntheticMotion(p: Logged, item: Logged, offset: Time)
    requires 0 < offset < item.timestamp - p.timestamp
    requires p.location.point.Some? && item.location.point.Some?
    ensures var a, e, b := p.location, Synthetic(p, item, offset).location, item.location;
            && BetweenOptional(a.speed, e.speed, b.speed) && BetweenOptional(a.course, e.course, b.course)
            && e.trackables == b.trackables && e.source == b.source && e.provider == b.provider
  {
    var f := offset as real / (item.timestamp - p.timestamp) as real;
    FractionBetween(offset, item.timestamp - p.timestamp);
    if p.location.speed.Some? && item.location.speed.Some? {
      BlendBetween(p.location.speed.value, item.location.speed.value, f);
    }
    if p.location.course.Some? && item.location.course.Some? {
      BlendBetween(p.location.course.value, item.location.course.value, f);
    }
  }

  lemma BlendProportional(a: real, b: real, n: int, d: int)
    requires d > 0
    ensures d as real * (Blend(a, b, n as real / d as real) - a) == n as real * (b - a)
  {
    var f := n as real / d as real;
    assert f * d as real == n as real;
    assert d as real * ((b - a) * f) == (f * d as real) * (b - a);
  }

  /** Covered distance is to the whole as elapsed time is to the gap, in place, speed, course and order. */
  ghost predicate Proportional(a: real, m: real, b: real, offset: Time, gap: Time) {
    gap as real * (m - a) == offset as real * (b - a)
  }

  ghost predicate ProportionalOptional(a: Option<real>, m: Option<real>, b: Option<real>, offset: Time, gap: Time) {
    if a.Some? && b.Some? then m.Some? && Proportional(a.value, m.value, b.value, offset, gap) else m == b
  }

  /** An interpolated location is where a steady motion from one neighbour to the other would be at its time. */
  lemma SyntheticProportional(p: Logged, item: Logged, offset: Time)
    requires 0 < offset < item.timestamp - p.timestamp
    requires p.location.point.Some? && item.location.point.Some?
    ensures var a, e, b := p.location, Synthetic(p, item, offset).location, item.location;
            var gap := item.timestamp - p.timestamp;
            && Synthetic(p, item, offset).timestamp == p.timestamp + offset && Synthetic(p, item, offset).synthetic
            && e.point.Some?
            && Proportional(a.point.value.x, e.point.value.x, b.point.value.x, offset, gap)
            && Proportional(a.point.value.y, e.point.value.y, b.point.value.y, offset, gap)
            && ProportionalOptional(a.speed, e.speed, b.speed, offset, gap)
            && ProportionalOptional(a.course, e.course, b.course, offset, gap)
            && Proportional(p.order as real, Synthetic(p, item, offset).order, p.order as real + 1.0, offset, gap)
  {
    var gap := item.timestamp - p.timestamp;
    var a, b := p.location, item.location;
    BlendProportional(a.point.value.x, b.point.value.x, offset, gap);
    BlendProportional(a.point.value.y, b.point.value.y, offset, gap);
    if a.speed.Some? && b.speed.Some? {
      BlendProportional(a.speed.value, b.speed.value, offset, gap);
    }
    if a.course.Some? && b.course.Some? {
      BlendProportional(a.course.value, b.course.value, offset, gap);
    }
    OrderProportional(p.order as real, offset, gap);
  }

  lemma OrderProportional(o: real, n: int, d: int)
    requires d > 0
    ensures Proportional(o, o + n as real / d as real, o + 1.0, n, d)
  {
  }

  predicate Between(a: real, m: real, b: real) {
    a <= m <= b || b <= m <= a
  }

  // ---------------------------------------------------------------------------
  // The expanded log
  // ---------------------------------------------------------------------------

  /** The latest item of an object. */
  function Latest(log: seq<Logged>, k: Key): Option<Logged> {
    if log == [] then None
    else if ObjectKey(log[|log| - 1].location) == Some(k) then Some(log[|log| - 1])
    else Latest(log[..|log| - 1], k)
  }

  /** One interpolated location per interval, from an offset up to the next item. */
  function Fill(p: Logged, item: Logged, interval: Time, offset: Time): seq<Expanded>
    requires interval > 0 && offset > 0
    requires p.location.point.Some? && item.location.point.Some?
    decreases item.timestamp - p.timestamp - offset
  {
    if offset < item.timestamp - p.timestamp
    then [Synthetic(p, item, offset)] + Fill(p, item, interval, offset + interval)
    else []
  }

  function Gap(previous: Option<Logged>, item: Logged, interval: Time): Result<seq<Expanded>>
    requires interval > 0
  {
    if previous.None? || item.timestamp - previous.value.timestamp <= interval then Ok([])
    else if previous.value.location.point.None? || item.location.point.None? then Err(BadPosition)
    else Ok(Fill(previous.value, item, interval, interval))
  }

  /** What one more item adds to the expanded log. */
  function Contribution(log: seq<Logged>, item: Logged, interval: Time): Result<seq<Expanded>>
    requires interval > 0
  {
    match ObjectKey(item.location)
    case None => Err(BadPosition)
    case Some(k) =>
      var gap := Gap(Latest(log, k), item, interval);
      if gap.Err? then gap else Ok(gap.value + [Real(item)])
  }

  function Expand(log: seq<Logged>, interval: Time): (r: Result<seq<Expanded>>)
    requires interval > 0
    ensures r.Err? ==> r.error == BadPosition
  {
    if log == [] then Ok([]) else
      var before := Expand(log[..|log| - 1], interval);
      if before.Err? then before else
        var more := Contribution(log[..|log| - 1], log[|log| - 1], interval);
        if more.Err? then more else Ok(before.value + more.value)
  }

  function Plain(log: seq<Logged>): seq<Expanded> {
    if log == [] then [] else Plain(log[..|log| - 1]) + [Real(log[|log| - 1])]
  }

  function Interpolation(log: seq<Logged>, rate: Rate): Result<seq<Expanded>>
    requires ValidRate(rate)
  {
    if rate.Every? then Expand(log, rate.interval) else Ok(Plain(log))
  }

  lemma {:induction false} ErrorSticks(log: seq<Logged>, interval: Time, n: nat)
    requires interval > 0 && n <= |log| && Expand(log[..n], interval).Err?
    ensures Expand(log, interval) == Expand(log[..n], interval)
  {
    if n == |log| {
      assert log[..n] == log;
    } else {
      assert log[..|log| - 1][..n] == log[..n];
      ErrorSticks(log[..|log| - 1], interval, n);
    }
  }

  // ---------------------------------------------------------------------------
  // Building it
  // ---------------------------------------------------------------------------

  function Lookup(m: map<Key, Logged>, k: Key): Option<Logged> {
    if k in m then Some(m[k]) else None
  }

  /** The dictionary of previous items holds the latest item of every object. */
  ghost predicate Remembers(m: map<Key, Logged>, log: seq<Logged>) {
    forall k :: Lookup(m, k) == Latest(log, k)
  }

  lemma RememberNext(m: map<Key, Logged>, log: seq<Logged>, item: Logged, k: Key)
    requires Remembers(m, log) && ObjectKey(item.location) == Some(k)
    ensures Remembers(m[k := item], log + [item])
  {
    assert (log + [item])[..|log|] == log;
    forall j ensures Lookup(m[k := item], j) == Latest(log + [item], j) {
      assert Lookup(m, j) == Latest(log, j);
    }
  }

  lemma MultipleOrder(a: int, b: int, d: int)
    requires d > 0
    ensures a <= b ==> a * d <= b * d
  {
  }

  lemma NextMultiple(n: int, d: int)
    requires d > 0
    ensures n < (n / d + 1) * d
  {
    var q := n / d;
    assert n == q * d + n % d;
    assert (q + 1) * d == q * d + d;
  }

  lemma StepPast(elapsed: int, interval: int, step: int)
    requires interval > 0 && elapsed > interval && step > elapsed / interval
    ensures step * interval >= elapsed
  {
    var q := elapsed / interval;
    NextMultiple(elapsed, interval);
    MultipleOrder(q + 1, step, interval);
  }

  function Offset(p: Logged, e: Expanded): Time {
    e.timestamp - p.timestamp
  }

  /** An interpolated location for every interval: from an offset on, one interval apart, up to the next item. */
  ghost predicate Spaced(p: Logged, item: Logged, interval: Time, offset: Time, es: seq<Expanded>)
    requires p.location.point.Some? && item.location.point.Some?
  {
    && (forall i :: 0 <= i < |es| ==>
          && 0 < Offset(p, es[i]) < item.timestamp - p.timestamp
          && es[i] == Synthetic(p, item, Offset(p, es[i])))
    && (es != [] ==> Offset(p, es[0]) == offset)
    && (forall i :: 0 < i < |es| ==> Offset(p, es[i]) == Offset(p, es[i - 1]) + interval)
    && (if es == [] then offset else Offset(p, es[|es| - 1]) + interval) >= item.timestamp - p.timestamp
  }

  lemma {:induction false} FillSpaced(p: Logged, item: Logged, interval: Time, offset: Time)
    requires interval > 0 && offset > 0
    requires p.location.point.Some? && item.location.point.Some?
    ensures Spaced(p, item, interval, offset, Fill(p, item, interval, offset))
    decreases item.timestamp - p.timestamp - offset
  {
    if offset < item.timestamp - p.timestamp {
      FillSpaced(p, item, interval, offset + interval);
      var rest := Fill(p, item, interval, offset + interval);
      var es := [Synthetic(p, item, offset)] + rest;
      forall i | 0 < i < |es| ensures es[i] == rest[i - 1] {
      }
    }
  }

  /** The inner loop: steps 1, 2, ... up to the truncated quotient, cut short at the next item. */
  method FillGap(p: Logged, item: Logged, interval: Time) returns (es: seq<Expanded>)
    requires interval > 0 && item.timestamp - p.timestamp > interval
    requires p.location.point.Some? && item.location.point.Some?
    ensures es == Fill(p, item, interval, interval)
  {
    es := [];
    var elapsed := item.timestamp - p.timestamp;
    var count := elapsed / interval;
    var step, offset := 1, interval;
    while step <= count
      invariant step >= 1 && offset == step * interval && offset >= interval
      invariant es + Fill(p, item, interval, offset) == Fill(p, item, interval, interval)
      decreases count - step
    {
      if offset >= elapsed {
        return;
      }
      ghost var rest := Fill(p, item, interval, offset + interval);
      assert es + ([Synthetic(p, item, offset)] + rest) == es + [Synthetic(p, item, offset)] + rest;
      es := es + [Synthetic(p, item, offset)];
      step, offset := step + 1, offset + interval;
    }
    StepPast(elapsed, interval, step);
  }

  method Contribute(previous: Option<Logged>, item: Logged, interval: Time) returns (r: Result<seq<Expanded>>)
    requires interval > 0
    ensures r == Gap(previous, item, interval)
  {
    if previous.None? || item.timestamp - previous.value.timestamp <= interval {
      return Ok([]);
    }
    if previous.value.location.point.None? || item.location.point.None? {
      return Err(BadPosition);
    }
    var es := FillGap(previous.value, item, interval);
    return Ok(es);
  }

  method InterpolateLog(log: seq<Logged>, rate: Rate) returns (r: Result<seq<Expanded>>)
    requires ValidRate(rate)
    ensures r == Interpolation(log, rate)
  {
    if !rate.Every? {
      var plain := CopyLog(log);
      return Ok(plain);
    }
    var expanded: seq<Expanded> := [];
    var previous: map<Key, Logged> := map[];
    for i := 0 to |log|
      invariant Expand(log[..i], rate.interval) == Ok(expanded)
      invariant Remembers(previous, log[..i])
    {
      var item := log[i];
      assert log[..i + 1] == log[..i] + [item] && log[..i + 1][..i] == log[..i];
      var key := ObjectKey(item.location);
      if key.None? {
        ErrorSticks(log, rate.interval, i + 1);
        return Err(BadPosition);
      }
      assert Lookup(previous, key.value) == Latest(log[..i], key.value);
      var gap := Contribute(if key.value in previous then Some(previous[key.value]) else None, item, rate.interval);
      if gap.Err? {
        ErrorSticks(log, rate.interval, i + 1);
        return Err(gap.error);
      }
      RememberNext(previous, log[..i], item, key.value);
      expanded := expanded + (gap.value + [Real(item)]);
      previous := previous[key.value := item];
    }
    assert log[..|log|] == log;
    return Ok(expanded);
  }

  method CopyLog(log: seq<Logged>) returns (es: seq<Expanded>)
    ensures es == Plain(log)
  {
    es := [];
    for i := 0 to |log|
      invariant es == Plain(log[..i])
    {
      assert log[..i + 1][..i] == log[..i];
      es := es + [Real(log[i])];
    }
    assert log[..|log|] == log;
  }

  // ---------------------------------------------------------------------------
  // Counting without building
  // ---------------------------------------------------------------------------

  function CountSynthetic(es: seq<Expanded>): nat {
    if es == [] then 0 else CountSynthetic(es[..|es| - 1]) + if es[|es| - 1].synthetic then 1 else 0
  }

  lemma {:induction false} CountConcat(a: seq<Expanded>, b: seq<Expanded>)
    ensures CountSynthetic(a + b) == CountSynthetic(a) + CountSynthetic(b)
  {
    if b == [] {
      assert a + b == a;
    } else {
      assert (a + b)[..|a + b| - 1] == a + b[..|b| - 1];
      CountConcat(a, b[..|b| - 1]);
    }
  }

  /** The quotient the preview adds for one item, from the largest time below the elapsed one. */
  function Quotient(previous: Option<Logged>, item: Logged, interval: Time): nat
    requires interval > 0
  {
    if previous.None? || item.timestamp - previous.value.timestamp <= interval then 0
    else (item.timestamp - previous.value.timestamp - 1) / interval
  }

  function Multiple(n: int, d: int): int {
    n * d
  }

  lemma MultipleBefore(n: int, d: int)
    ensures Multiple(n, d) == Multiple(n - 1, d) + d
  {
  }

  /** The number of whole intervals strictly below n. */
  lemma QuotientBounds(n: int, d: int, q: int)
    requires d > 0 && q == (n - 1) / d
    ensures Multiple(q, d) < n <= Multiple(q, d) + d
  {
  }

  /** As many locations are filled in as whole intervals fit before the next item. */
  lemma {:induction false} FillCount(p: Logged, item: Logged, interval: Time, offset: Time, left: nat)
    requires interval > 0 && offset > 0
    requires offset + Multiple(left, interval) - interval < item.timestamp - p.timestamp
    requires item.timestamp - p.timestamp <= offset + Multiple(left, interval)
    requires p.location.point.Some? && item.location.point.Some?
    ensures var es := Fill(p, item, interval, offset); |es| == left && CountSynthetic(es) == |es|
    decreases left
  {
    if left > 0 {
      MultipleBefore(left, interval);
      MultipleNonNegative(left - 1, interval);
      FillCount(p, item, interval, offset + interval, left - 1);
      CountConcat([Synthetic(p, item, offset)], Fill(p, item, interval, offset + interval));
    } else {
      assert Multiple(0, interval) == 0;
    }
  }

  lemma MultipleNonNegative(n: nat, d: nat)
    ensures Multiple(n, d) >= 0
  {
  }

  lemma GapCount(previous: Option<Logged>, item: Logged, interval: Time)
    requires interval > 0 && Gap(previous, item, interval).Ok?
    ensures var es := Gap(previous, item, interval).value;
            |es| == Quotient(previous, item, interval) && CountSynthetic(es) == |es|
  {
    if previous.Some? && item.timestamp - previous.value.timestamp > interval {
      var elapsed := item.timestamp - previous.value.timestamp;
      var left := (elapsed - 1) / interval;
      QuotientBounds(elapsed, interval, left);
      FillCount(previous.value, item, interval, interval, left);
    }
  }

  predicate AllKeyed(log: seq<Logged>) {
    forall i :: 0 <= i < |log| ==> ObjectKey(log[i].location).Some?
  }

  function Predicted(log: seq<Logged>, interval: Time): nat
    requires interval > 0
  {
    if log == [] then 0 else
      var init, item := log[..|log| - 1], log[|log| - 1];
      var key := ObjectKey(item.location);
      Predicted(init, interval) + if key.None? then 0 else Quotient(Latest(init, key.value), item, interval)
  }

  lemma MoreCount(log: seq<Logged>, item: Logged, interval: Time, k: Key)
    requires interval > 0 && ObjectKey(item.location) == Some(k) && Contribution(log, item, interval).Ok?
    ensures var more := Contribution(log, item, interval).value;
            && CountSynthetic(more) == Quotient(Latest(log, k), item, interval)
            && |more| == 1 + CountSynthetic(more)
  {
    GapCount(Latest(log, k), item, interval);
    CountConcat(Gap(Latest(log, k), item, interval).value, [Real(item)]);
  }

  /** The sum of the quotients is what the interpolator adds. */
  lemma {:induction false} PredictedIsBuilt(log: seq<Logged>, interval: Time)
    requires interval > 0 && Expand(log, interval).Ok?
    ensures CountSynthetic(Expand(log, interval).value) == Predicted(log, interval)
    ensures |Expand(log, interval).value| == |log| + Predicted(log, interval)
  {
    if log != [] {
      var init, item := log[..|log| - 1], log[|log| - 1];
      PredictedIsBuilt(init, interval);
      MoreCount(init, item, interval, ObjectKey(item.location).value);
      CountConcat(Expand(init, interval).value, Contribution(init, item, interval).value);
    }
  }

  lemma {:induction false} PlainCount(log: seq<Logged>)
    ensures |Plain(log)| == |log| && CountSynthetic(Plain(log)) == 0
  {
    if log != [] {
      PlainCount(log[..|log| - 1]);
    }
  }

  datatype Preview = Preview(scheduled: nat, synthetic: nat, span: Time)

  /**
   The preview agrees with the list the interpolator builds whenever that list exists,
   and fails by itself exactly for the inputs named here.
   */
  method PreviewSchedule(log: seq<Logged>, rate: Rate) returns (r: Result<Preview>)
    requires ValidRate(rate)
    ensures r.Err? <==> log == [] || rate.Negative? || (rate.Every? && !AllKeyed(log))
    ensures log == [] ==> r == Err(EmptyLog)
    ensures log != [] && rate.Negative? ==> r == Err(NegativeRate)
    ensures r.Ok? && Interpolation(log, rate).Ok? ==>
              var es := Interpolation(log, rate).value;
              r.value == Preview(|es|, CountSynthetic(es), log[|log| - 1].timestamp - log[0].timestamp)
    ensures r.Ok? && rate.Every? ==> r.value.synthetic == Predicted(log, rate.interval)
  {
    if log == [] {
      return Err(EmptyLog);
    }
    if rate.Negative? {
      return Err(NegativeRate);
    }
    var synthetic := 0;
    if rate.Every? {
      var counted := CountGaps(log, rate.interval);
      if counted.Err? {
        return Err(counted.error);
      }
      synthetic := counted.value;
      if Expand(log, rate.interval).Ok? {
        PredictedIsBuilt(log, rate.interval);
      }
    } else {
      PlainCount(log);
    }
    return Ok(Preview(|log| + synthetic, synthetic, log[|log| - 1].timestamp - log[0].timestamp));
  }

  method CountGaps(log: seq<Logged>, interval: Time) returns (r: Result<nat>)
    requires interval > 0
    ensures r == if AllKeyed(log) then Ok(Predicted(log, interval)) else Err(BadPosition)
  {
    var synthetic := 0;
    var previous: map<Key, Logged> := map[];
    for i := 0 to |log|
      invariant synthetic == Predicted(log[..i], interval)
      invariant AllKeyed(log[..i])
      invariant Remembers(previous, log[..i])
    {
      var item := log[i];
      assert log[..i + 1] == log[..i] + [item] && log[..i + 1][..i] == log[..i];
      var key := ObjectKey(item.location);
      if key.None? {
        return Err(BadPosition);
      }
      assert Lookup(previous, key.value) == Latest(log[..i], key.value);
      if key.value in previous {
        var elapsed := item.timestamp - previous[key.value].timestamp;
        if elapsed > interval {
          synthetic := synthetic + (elapsed - 1) / interval;
        }
      }
      RememberNext(previous, log[..i], item, key.value);
      previous := previous[key.value := item];
    }
    assert log[..|log|] == log;
    return Ok(synthetic);
  }

  // ---------------------------------------------------------------------------
  // When building fails although every item has a key
  // ---------------------------------------------------------------------------

  /** The item needs filling before it, but it or its predecessor has no usable point. */
  predicate Unfillable(log: seq<Logged>, i: nat, interval: Time)
    requires interval > 0 && i < |log|
  {
    var key := ObjectKey(log[i].location);
    && key.Some?
    && var p := Latest(log[..i], key.value);
       && p.Some? && log[i].timestamp - p.value.timestamp > interval
       && (p.value.location.point.None? || log[i].location.point.None?)
  }

  /** The interpolator succeeds exactly when every item has a key and every gap that needs filling has two points. */
  lemma {:induction false} ExpandsIff(log: seq<Logged>, interval: Time)
    requires interval > 0
    ensures Expand(log, interval).Ok? <==>
            AllKeyed(log) && forall i :: 0 <= i < |log| ==> !Unfillable(log, i, interval)
  {
    if log != [] {
      var last := |log| - 1;
      var init := log[..last];
      ExpandsIff(init, interval);
      assert forall i :: 0 <= i < last ==> init[i] == log[i];
      forall i | 0 <= i < last ensures Unfillable(init, i, interval) == Unfillable(log, i, interval) {
        assert init[..i] == log[..i];
      }
      assert Contribution(init, log[last], interval).Ok? <==>
             ObjectKey(log[last].location).Some? && !Unfillable(log, last, interval);
    }
  }

  /** A log of point locations can always be expanded. */
  lemma PointsExpand(log: seq<Logged>, interval: Time)
    requires interval > 0 && forall i :: 0 <= i < |log| ==> log[i].location.point.Some?
    ensures Expand(log, interval).Ok?
  {
    forall i | 0 <= i < |log| ensures !Unfillable(log, i, interval) {
      var key := ObjectKey(log[i].location);
      if key.Some? && Latest(log[..i], key.value).Some? {
        LatestHasKey(log[..i], key.value);
      }
    }
    ExpandsIff(log, interval);
  }

  /** A preview can therefore succeed for a log that cannot be built. */
  lemma PreviewTooOptimistic()
    ensures var l := Location([], "s", "", None, None, None);
            var log := [Logged(0, 0, l), Logged(1, 10, l)];
            AllKeyed(log) && Predicted(log, 3) == 3 && Expand(log, 3) == Err(BadPosition)
  {
    var l := Location([], "s", "", None, None, None);
    var log := [Logged(0, 0, l), Logged(1, 10, l)];
    assert log[..1] == [Logged(0, 0, l)] && log[..1][..0] == [];
    assert Latest(log[..1], BySource("s")) == Some(log[0]);
    assert Predicted(log[..1], 3) == 0;
    assert Unfillable(log, 1, 3);
    ExpandsIff(log, 3);
  }

  // ---------------------------------------------------------------------------
  // What the expanded log keeps
  // ---------------------------------------------------------------------------

  function Originals(es: seq<Expanded>): seq<Expanded> {
    if es == [] then [] else
      Originals(es[..|es| - 1]) + if es[|es| - 1].synthetic then [] else [es[|es| - 1]]
  }

  lemma {:induction false} OriginalsConcat(a: seq<Expanded>, b: seq<Expanded>)
    ensures Originals(a + b) == Originals(a) + Originals(b)
  {
    if b == [] {
      assert a + b == a;
    } else {
      assert (a + b)[..|a + b| - 1] == a + b[..|b| - 1];
      OriginalsConcat(a, b[..|b| - 1]);
    }
  }

  lemma {:induction false} FillHasNoOriginals(p: Logged, item: Logged, interval: Time, offset: Time)
    requires interval > 0 && offset > 0
    requires p.location.point.Some? && item.location.point.Some?
    ensures Originals(Fill(p, item, interval, offset)) == []
    decreases item.timestamp - p.timestamp - offset
  {
    if offset < item.timestamp - p.timestamp {
      FillHasNoOriginals(p, item, interval, offset + interval);
      OriginalsConcat([Synthetic(p, item, offset)], Fill(p, item, interval, offset + interval));
    }
  }

  /** Without its interpolated locations the expanded log is the log. */
  lemma {:induction false} OriginalsKept(log: seq<Logged>, interval: Time)
    requires interval > 0 && Expand(log, interval).Ok?
    ensures Originals(Expand(log, interval).value) == Plain(log)
  {
    if log != [] {
      var init, item := log[..|log| - 1], log[|log| - 1];
      OriginalsKept(init, interval);
      var p := Latest(init, ObjectKey(item.location).value);
      var gap := Gap(p, item, interval).value;
      if gap != [] {
        FillHasNoOriginals(p.value, item, interval, interval);
      }
      OriginalsConcat(gap, [Real(item)]);
      OriginalsConcat(Expand(init, interval).value, gap + [Real(item)]);
    }
  }

  // ---------------------------------------------------------------------------
  // Timing
  // ---------------------------------------------------------------------------

  predicate TimeSorted(log: seq<Logged>) {
    forall i :: 0 < i < |log| ==> log[i - 1].timestamp <= log[i].timestamp
  }

  /** Neighbours never go back in time and are at most one interval apart. */
  predicate Steady(ts: seq<Time>, interval: Time) {
    forall i :: 0 < i < |ts| ==> 0 <= ts[i] - ts[i - 1] <= interval
  }

  predicate Ascending(ts: seq<Time>) {
    forall i :: 0 < i < |ts| ==> ts[i - 1] <= ts[i]
  }

  function Times(es: seq<Expanded>): (ts: seq<Time>)
    ensures |ts| == |es| && forall i :: 0 <= i < |es| ==> ts[i] == es[i].timestamp
  {
    seq(|es|, i requires 0 <= i < |es| => es[i].timestamp)
  }

  /** The timestamps of one object. */
  function TimesOf(es: seq<Expanded>, k: Key): seq<Time> {
    if es == [] then [] else
      TimesOf(es[..|es| - 1], k) + if ObjectKey(es[|es| - 1].location) == Some(k) then [es[|es| - 1].timestamp] else []
  }

  lemma {:induction false} TimesOfConcat(a: seq<Expanded>, b: seq<Expanded>, k: Key)
    ensures TimesOf(a + b, k) == TimesOf(a, k) + TimesOf(b, k)
  {
    if b == [] {
      assert a + b == a;
    } else {
      assert (a + b)[..|a + b| - 1] == a + b[..|b| - 1];
      TimesOfConcat(a, b[..|b| - 1], k);
    }
  }

  lemma SteadyJoin(a: seq<Time>, b: seq<Time>, interval: Time)
    requires Steady(a, interval) && Steady(b, interval)
    requires a != [] && b != [] ==> 0 <= b[0] - a[|a| - 1] <= interval
    ensures Steady(a + b, interval)
  {
  }

  /** The filled-in times step evenly and end within one interval of the next item. */
  lemma {:induction false} FillTimes(p: Logged, item: Logged, interval: Time, offset: Time)
    requires interval > 0 && offset > 0 && offset - interval < item.timestamp - p.timestamp
    requires p.location.point.Some? && item.location.point.Some?
    ensures var ts := Times(Fill(p, item, interval, offset));
            && Steady([p.timestamp + offset - interval] + ts + [item.timestamp], interval)
            && (offset < item.timestamp - p.timestamp ==> |ts| > 0 && ts[0] == p.timestamp + offset)
    decreases item.timestamp - p.timestamp - offset
  {
    var ts := Times(Fill(p, item, interval, offset));
    if offset < item.timestamp - p.timestamp {
      FillTimes(p, item, interval, offset + interval);
      var rest := Times(Fill(p, item, interval, offset + interval));
      assert ts == [p.timestamp + offset] + rest;
      SteadyJoin([p.timestamp + offset - interval], [p.timestamp + offset] + rest + [item.timestamp], interval);
      assert [p.timestamp + offset - interval] + ([p.timestamp + offset] + rest + [item.timestamp])
          == [p.timestamp + offset - interval] + ts + [item.timestamp];
    } else {
      assert [p.timestamp + offset - interval] + ts + [item.timestamp] ==
             [p.timestamp + offset - interval, item.timestamp];
    }
  }

  ghost predicate AllOf(es: seq<Expanded>, k: Key) {
    forall i :: 0 <= i < |es| ==> ObjectKey(es[i].location) == Some(k)
  }

  /** The times of a list that belongs to one object. */
  lemma {:induction false} TimesOfOne(es: seq<Expanded>, k: Key, j: Key)
    requires AllOf(es, k)
    ensures TimesOf(es, j) == if j == k then Times(es) else []
  {
    if es != [] {
      var init, last := es[..|es| - 1], es[|es| - 1];
      TimesOfOne(init, k, j);
      assert Times(es) == Times(init) + [last.timestamp];
    }
  }

  lemma ConsAllOf(e: Expanded, rest: seq<Expanded>, k: Key)
    requires ObjectKey(e.location) == Some(k) && AllOf(rest, k)
    ensures AllOf([e] + rest, k)
  {
  }

  lemma {:induction false} FillAllOf(p: Logged, item: Logged, interval: Time, offset: Time, k: Key)
    requires interval > 0 && offset > 0
    requires p.location.point.Some? && item.location.point.Some?
    requires ObjectKey(p.location) == Some(k) && ObjectKey(item.location) == Some(k)
    ensures AllOf(Fill(p, item, interval, offset), k)
    decreases item.timestamp - p.timestamp - offset
  {
    if offset < item.timestamp - p.timestamp {
      FillAllOf(p, item, interval, offset + interval, k);
      SyntheticBelongs(p, item, offset, k);
      ConsAllOf(Synthetic(p, item, offset), Fill(p, item, interval, offset + interval), k);
    }
  }

  lemma {:induction false} LatestHasKey(log: seq<Logged>, k: Key)
    requires Latest(log, k).Some?
    ensures ObjectKey(Latest(log, k).value.location) == Some(k)
    ensures Latest(log, k).value in log
  {
    if ObjectKey(log[|log| - 1].location) != Some(k) {
      LatestHasKey(log[..|log| - 1], k);
    }
  }

  lemma {:induction false} SortedLast(log: seq<Logged>, i: nat)
    requires TimeSorted(log) && i < |log|
    ensures log[i].timestamp <= log[|log| - 1].timestamp
  {
    if i < |log| - 1 {
      SortedLast(log[..|log| - 1], i);
    }
  }

  /** The times of one object are steady and end at its latest item. */
  predicate ObjectSteady(log: seq<Logged>, interval: Time, ts: seq<Time>, k: Key) {
    && Steady(ts, interval)
    && (ts == [] <==> Latest(log, k).None?)
    && (ts != [] ==> Latest(log, k).Some? && ts[|ts| - 1] == Latest(log, k).value.timestamp)
  }

  /** What one item adds to the times of an object. */
  lemma GapTimesOf(previous: Option<Logged>, item: Logged, interval: Time, k: Key, j: Key)
    requires interval > 0 && Gap(previous, item, interval).Ok? && ObjectKey(item.location) == Some(k)
    requires previous.Some? ==> ObjectKey(previous.value.location) == Some(k)
    ensures var gap := Gap(previous, item, interval).value;
            TimesOf(gap + [Real(item)], j) == if j == k then Times(gap) + [item.timestamp] else []
  {
    var gap := Gap(previous, item, interval).value;
    TimesOfConcat(gap, [Real(item)], j);
    assert TimesOf([Real(item)], j) == if j == k then [item.timestamp] else [];
    if previous.Some? && item.timestamp - previous.value.timestamp > interval {
      FillAllOf(previous.value, item, interval, interval, k);
      TimesOfOne(gap, k, j);
    }
  }

  lemma SteadyTail(t: Time, ts: seq<Time>, interval: Time)
    requires ts != [] && Steady([t] + ts, interval)
    ensures Steady(ts, interval) && 0 <= ts[0] - t <= interval
  {
    var lead := [t] + ts;
    assert 0 <= lead[1] - lead[0] <= interval;
    forall i | 0 < i < |ts| ensures 0 <= ts[i] - ts[i - 1] <= interval {
      assert ts[i] == lead[i + 1] && ts[i - 1] == lead[i];
    }
  }

  /** The filled gap leads evenly from the previous item to the next. */
  lemma GapSteady(previous: Option<Logged>, item: Logged, interval: Time)
    requires interval > 0 && Gap(previous, item, interval).Ok?
    requires previous.Some? ==> previous.value.timestamp <= item.timestamp
    ensures var ts := Times(Gap(previous, item, interval).value) + [item.timestamp];
            && Steady(ts, interval)
            && (previous.Some? ==> 0 <= ts[0] - previous.value.timestamp <= interval)
  {
    if previous.Some? && item.timestamp - previous.value.timestamp > interval {
      FillTimes(previous.value, item, interval, interval);
      var gap := Times(Fill(previous.value, item, interval, interval));
      assert [previous.value.timestamp] + (gap + [item.timestamp]) ==
             [previous.value.timestamp] + gap + [item.timestamp];
      SteadyTail(previous.value.timestamp, gap + [item.timestamp], interval);
    }
  }

  lemma LatestNotAfter(log: seq<Logged>, item: Logged, k: Key)
    requires TimeSorted(log + [item]) && Latest(log, k).Some?
    ensures Latest(log, k).value.timestamp <= item.timestamp
  {
    LatestHasKey(log, k);
    var i :| 0 <= i < |log| && log[i] == Latest(log, k).value;
    SortedLast(log + [item], i);
  }

  lemma LatestSnoc(log: seq<Logged>, item: Logged, j: Key)
    ensures Latest(log + [item], j) == if ObjectKey(item.location) == Some(j) then Some(item) else Latest(log, j)
  {
  }

  /** More steady times that lead on to the next item of the object. */
  lemma SteadyExtend(log: seq<Logged>, item: Logged, interval: Time, ts: seq<Time>, tail: seq<Time>, k: Key)
    requires ObjectSteady(log, interval, ts, k) && Steady(tail, interval) && ObjectKey(item.location) == Some(k)
    requires tail != [] && tail[|tail| - 1] == item.timestamp
    requires Latest(log, k).Some? ==> 0 <= tail[0] - Latest(log, k).value.timestamp <= interval
    ensures ObjectSteady(log + [item], interval, ts + tail, k)
  {
    LatestSnoc(log, item, k);
    SteadyJoin(ts, tail, interval);
  }

  lemma ObjectStepSame(log: seq<Logged>, item: Logged, interval: Time, ts: seq<Time>, k: Key)
    requires interval > 0 && TimeSorted(log + [item]) && ObjectKey(item.location) == Some(k)
    requires Gap(Latest(log, k), item, interval).Ok? && ObjectSteady(log, interval, ts, k)
    ensures ObjectSteady(log + [item], interval,
                         ts + (Times(Gap(Latest(log, k), item, interval).value) + [item.timestamp]), k)
  {
    if Latest(log, k).Some? {
      LatestNotAfter(log, item, k);
    }
    GapSteady(Latest(log, k), item, interval);
    SteadyExtend(log, item, interval, ts, Times(Gap(Latest(log, k), item, interval).value) + [item.timestamp], k);
  }

  lemma MoreTimesOf(log: seq<Logged>, item: Logged, interval: Time, more: seq<Expanded>, k: Key, j: Key)
    requires interval > 0 && Contribution(log, item, interval) == Ok(more) && ObjectKey(item.location) == Some(k)
    ensures TimesOf(more, j) ==
            if j == k then Times(Gap(Latest(log, k), item, interval).value) + [item.timestamp] else []
  {
    if Latest(log, k).Some? {
      LatestHasKey(log, k);
    }
    GapTimesOf(Latest(log, k), item, interval, k, j);
  }

  lemma ObjectStep(log: seq<Logged>, item: Logged, interval: Time, es: seq<Expanded>, more: seq<Expanded>, j: Key)
    requires interval > 0 && TimeSorted(log + [item])
    requires Contribution(log, item, interval) == Ok(more) && ObjectSteady(log, interval, TimesOf(es, j), j)
    ensures ObjectSteady(log + [item], interval, TimesOf(es + more, j), j)
  {
    var k := ObjectKey(item.location).value;
    MoreTimesOf(log, item, interval, more, k, j);
    TimesOfConcat(es, more, j);
    if j == k {
      ObjectStepSame(log, item, interval, TimesOf(es, j), j);
    } else {
      ObjectStepOther(log, item, interval, TimesOf(es, j), j);
    }
  }

  lemma ObjectStepOther(log: seq<Logged>, item: Logged, interval: Time, ts: seq<Time>, j: Key)
    requires ObjectKey(item.location) != Some(j) && ObjectSteady(log, interval, ts, j)
    ensures ObjectSteady(log + [item], interval, ts + [], j)
  {
    LatestSnoc(log, item, j);
    assert ts + [] == ts;
  }

  /** On a time-sorted log every object advances in time, in steps of at most one interval. */
  lemma {:induction false} ObjectsAdvance(log: seq<Logged>, interval: Time, k: Key)
    requires interval > 0 && TimeSorted(log) && Expand(log, interval).Ok?
    ensures ObjectSteady(log, interval, TimesOf(Expand(log, interval).value, k), k)
  {
    if log != [] {
      var init, item := log[..|log| - 1], log[|log| - 1];
      ObjectsAdvance(init, interval, k);
      assert log == init + [item];
      ObjectStep(init, item, interval, Expand(init, interval).value, Contribution(init, item, interval).value, k);
    }
  }

  // ---------------------------------------------------------------------------
  // Order across objects
  // ---------------------------------------------------------------------------

  /** The filling before an item would start before some other object's item that is already in the list. */
  predicate Overlaps(log: seq<Logged>, i: nat, interval: Time)
    requires i < |log|
  {
    var key := ObjectKey(log[i].location);
    && key.Some? && i > 0
    && var p := Latest(log[..i], key.value);
       && p.Some? && log[i].timestamp - p.value.timestamp > interval
       && p.value.timestamp + interval < log[i - 1].timestamp
  }

  lemma AscendingJoin(a: seq<Time>, b: seq<Time>)
    requires b != []
    ensures Ascending(a + b) <==> Ascending(a) && Ascending(b) && (a != [] ==> a[|a| - 1] <= b[0])
  {
    var c := a + b;
    assert forall i :: 0 <= i < |a| ==> c[i] == a[i];
    assert forall i :: 0 <= i < |b| ==> b[i] == c[|a| + i];
    if Ascending(c) {
      forall i | 0 < i < |b| ensures b[i - 1] <= b[i] {
        assert c[|a| + i - 1] <= c[|a| + i];
      }
      if a != [] {
        assert c[|a| - 1] <= c[|a|];
      }
    }
    if Ascending(a) && Ascending(b) && (a != [] ==> a[|a| - 1] <= b[0]) {
      forall i | 0 < i < |c| ensures c[i - 1] <= c[i] {
        if i > |a| {
          assert b[i - |a| - 1] <= b[i - |a|];
        }
      }
    }
  }

  /** What an item adds is in order, and starts one interval after the previous item when it is filled. */
  lemma MoreInOrder(log: seq<Logged>, item: Logged, interval: Time, more: seq<Expanded>)
    requires interval > 0 && TimeSorted(log + [item]) && Contribution(log, item, interval) == Ok(more)
    ensures more != [] && Ascending(Times(more)) && Times(more)[|more| - 1] == item.timestamp
    ensures var p := Latest(log, ObjectKey(item.location).value);
            Times(more)[0] == if p.Some? && item.timestamp - p.value.timestamp > interval
                              then p.value.timestamp + interval else item.timestamp
  {
    var p := Latest(log, ObjectKey(item.location).value);
    var gap := Gap(p, item, interval).value;
    assert Times(more) == Times(gap) + [item.timestamp];
    if p.Some? && item.timestamp - p.value.timestamp > interval {
      GapSteady(p, item, interval);
      FillTimes(p.value, item, interval, interval);
    }
  }

  /** No filling overlaps another object. */
  predicate Tidy(log: seq<Logged>, interval: Time) {
    forall i :: 0 <= i < |log| ==> !Overlaps(log, i, interval)
  }

  lemma TidySnoc(log: seq<Logged>, item: Logged, interval: Time)
    ensures Tidy(log + [item], interval) <==> Tidy(log, interval) && !Overlaps(log + [item], |log|, interval)
  {
    var more := log + [item];
    forall i | 0 <= i < |log| ensures Overlaps(log, i, interval) == Overlaps(more, i, interval) {
      assert log[..i] == more[..i];
    }
  }

  /** The built list ends with the last item of the log. */
  predicate EndsTogether(log: seq<Logged>, es: seq<Expanded>) {
    if log == [] then es == [] else es != [] && es[|es| - 1].timestamp == log[|log| - 1].timestamp
  }

  lemma SortedStep(log: seq<Logged>, item: Logged, interval: Time, es: seq<Expanded>, more: seq<Expanded>)
    requires interval > 0 && TimeSorted(log + [item]) && Contribution(log, item, interval) == Ok(more)
    requires EndsTogether(log, es)
    ensures EndsTogether(log + [item], es + more)
    ensures Ascending(Times(es + more)) <==> Ascending(Times(es)) && !Overlaps(log + [item], |log|, interval)
  {
    MoreInOrder(log, item, interval, more);
    assert (log + [item])[..|log|] == log;
    AscendingJoin(Times(es), Times(more));
    assert Times(es + more) == Times(es) + Times(more);
  }

  /** The whole expanded log of a time-sorted log is in time order exactly when no filling overlaps another object. */
  lemma {:induction false} SortedIff(log: seq<Logged>, interval: Time)
    requires interval > 0 && TimeSorted(log) && Expand(log, interval).Ok?
    ensures EndsTogether(log, Expand(log, interval).value)
    ensures Ascending(Times(Expand(log, interval).value)) <==> Tidy(log, interval)
  {
    if log != [] {
      var init, item := log[..|log| - 1], log[|log| - 1];
      SortedIff(init, interval);
      assert log == init + [item];
      TidySnoc(init, item, interval);
      SortedStep(init, item, interval, Expand(init, interval).value, Contribution(init, item, interval).value);
    }
  }

  /** Two objects whose expanded log goes back in time: the filling of one follows a later item of the other. */
  lemma OutOfOrder()
    ensures var a := Location([], "a", "", Some(Geometry.Point(0.0, 0.0)), None, None);
            var b := Location([], "b", "", Some(Geometry.Point(0.0, 0.0)), None, None);
            var log := [Logged(0, 0, a), Logged(1, 9, b), Logged(2, 10, a)];
            TimeSorted(log) && Expand(log, 3).Ok? && !Ascending(Times(Expand(log, 3).value))
  {
    var a := Location([], "a", "", Some(Geometry.Point(0.0, 0.0)), None, None);
    var b := Location([], "b", "", Some(Geometry.Point(0.0, 0.0)), None, None);
    var log := [Logged(0, 0, a), Logged(1, 9, b), Logged(2, 10, a)];
    assert log[..2] == [log[0], log[1]] && log[..2][..1] == [log[0]];
    assert Latest(log[..2], BySource("a")) == Some(log[0]);
    PointsExpand(log, 3);
    assert Overlaps(log, 2, 3);
    SortedIff(log, 3);
  }

  // ---------------------------------------------------------------------------
  // The schedule
  // ---------------------------------------------------------------------------

  datatype Replayed = Replayed(order: real, original: Time, replay: real, location: Location, synthetic: bool)

  function ReplayTime(start: real, acceleration: real, baseline: Time, t: Time): real
    requires acceleration > 0.0
  {
    start + (t - baseline) as real / acceleration
  }

  /** The location is carried over, its distance from the baseline shrunk by the acceleration. */
  predicate Placed(out: Replayed, e: Expanded, start: real, acceleration: real, baseline: Time) {
    && out.order == e.order && out.original == e.timestamp && out.location == e.location && out.synthetic == e.synthetic
    && (out.replay - start) * acceleration == (e.timestamp - baseline) as real
  }

  function Place(e: Expanded, start: real, acceleration: real, baseline: Time): Replayed
    requires acceleration > 0.0
  {
    Replayed(e.order, e.timestamp, ReplayTime(start, acceleration, baseline, e.timestamp), e.location, e.synthetic)
  }

  lemma ReplayPlaces(e: Expanded, start: real, acceleration: real, baseline: Time)
    requires acceleration > 0.0
    ensures Placed(Place(e, start, acceleration, baseline), e, start, acceleration, baseline)
  {
  }

  /** Placed locations are in the order of their original times. */
  lemma PlacedInOrder(a: Replayed, d: Expanded, b: Replayed, e: Expanded, start: real, acceleration: real,
                      baseline: Time)
    requires acceleration > 0.0 && Placed(a, d, start, acceleration, baseline)
    requires Placed(b, e, start, acceleration, baseline)
    ensures a.replay <= b.replay <==> d.timestamp <= e.timestamp
  {
    ProductOrder(a.replay - start, b.replay - start, acceleration);
  }

  lemma ProductOrder(a: real, b: real, d: real)
    requires d > 0.0
    ensures a * d <= b * d <==> a <= b
  {
  }

  method PlaceAll(es: seq<Expanded>, start: real, acceleration: real) returns (out: seq<Replayed>)
    requires es != [] && acceleration > 0.0
    ensures |out| == |es| && forall i :: 0 <= i < |es| ==> Placed(out[i], es[i], start, acceleration, es[0].timestamp)
  {
    var baseline := es[0].timestamp;
    out := [];
    for i := 0 to |es|
      invariant |out| == i && forall n :: 0 <= n < i ==> Placed(out[n], es[n], start, acceleration, baseline)
    {
      ReplayPlaces(es[i], start, acceleration, baseline);
      out := out + [Place(es[i], start, acceleration, baseline)];
    }
  }

  method BuildSchedule(log: seq<Logged>, start: real, acceleration: real, rate: Rate) returns (r: Result<seq<Replayed>>)
    requires ValidRate(rate)
    ensures acceleration <= 0.0 ==> r == Err(NonPositiveAcceleration)
    ensures acceleration > 0.0 && rate.Negative? ==> r == Err(NegativeRate)
    ensures r.Ok? <==> acceleration > 0.0 && !rate.Negative? && log != [] && Interpolation(log, rate).Ok?
    ensures r.Ok? ==>
              var es := Interpolation(log, rate).value;
              && |r.value| == |es| && es != []
              && forall i :: 0 <= i < |es| ==> Placed(r.value[i], es[i], start, acceleration, es[0].timestamp)
  {
    if acceleration <= 0.0 {
      return Err(NonPositiveAcceleration);
    }
    if rate.Negative? {
      return Err(NegativeRate);
    }
    var expanded := InterpolateLog(log, rate);
    if expanded.Err? {
      return Err(expanded.error);
    }
    ExpandedEmptyIff(log, rate);
    if expanded.value == [] {
      return Err(EmptySchedule);
    }
    var out := PlaceAll(expanded.value, start, acceleration);
    return Ok(out);
  }

  lemma ExpandedEmptyIff(log: seq<Logged>, rate: Rate)
    requires ValidRate(rate) && Interpolation(log, rate).Ok?
    ensures Interpolation(log, rate).value == [] <==> log == []
  {
  }
}
