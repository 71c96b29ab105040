/**
 Whole runs of one fence engine: location calls, forgotten trackables and sweeps in any
 order. For every pair the engine's events are those of the pair's own run.
 */
module FenceRuns {
  import opened Wrappers
  import opened ProcessingState
  import opened FenceRules
  import opened FencePipeline
  import Engine = FenceEngine

  // ---------------------------------------------------------------------------
  // Runs of one pair with sweeps
  // ---------------------------------------------------------------------------

  /** What happens to a pair: a step of its state machine, or the sweeper passing. */
  datatype Act = Stepping(step: Step) | Sweeping(time: Time)

  function TimeOf(a: Act): Time {
    if a.Stepping? then a.step.at else a.time
  }

  ghost predicate Chronological(acts: seq<Act>) {
    forall i, j :: 0 <= i < j < |acts| ==> TimeOf(acts[i]) <= TimeOf(acts[j])
  }

  function StateAfter(acts: seq<Act>, n: nat): PairState
    requires n <= |acts|
  {
    if n == 0 then None
    else if acts[n - 1].Stepping? then PairStep(StateAfter(acts, n - 1), acts[n - 1].step).0
    else Engine.Alive(StateAfter(acts, n - 1), acts[n - 1].time)
  }

  /** The events of the pair. */
  function EventsAfter(acts: seq<Act>, n: nat): seq<Outcome>
    requires n <= |acts|
  {
    if n == 0 then []
    else if acts[n - 1].Stepping? then
      EventsAfter(acts, n - 1) + Engine.Loud(PairStep(StateAfter(acts, n - 1), acts[n - 1].step).1)
    else EventsAfter(acts, n - 1)
  }

  /** The same acts with every sweep left out. */
  function Unswept(acts: seq<Act>): seq<Act> {
    if acts == [] then []
    else if acts[|acts| - 1].Stepping? then Unswept(acts[..|acts| - 1]) + [acts[|acts| - 1]]
    else Unswept(acts[..|acts| - 1])
  }

  /** The steps of two sweepless runs agree one by one. */
  ghost predicate SameSteps(a: seq<Act>, b: seq<Act>) {
    |a| == |b| && forall i :: 0 <= i < |a| ==> a[i].Stepping? && b[i].Stepping? && SameStep(a[i].step, b[i].step)
  }

  lemma SameStepsInit(a: seq<Act>, x: Act, b: seq<Act>, y: Act)
    requires SameSteps(a + [x], b + [y])
    ensures SameSteps(a, b) && x.Stepping? && y.Stepping? && SameStep(x.step, y.step)
  {
    var u, v := a + [x], b + [y];
    forall i | 0 <= i < |a| ensures a[i].Stepping? && b[i].Stepping? && SameStep(a[i].step, b[i].step) {
      assert u[i] == a[i] && v[i] == b[i];
    }
    assert u[|a|] == x && v[|b|] == y;
  }

  /** Dropping a membership that has expired by the next step changes neither the step nor its event. */
  lemma StepIgnoresExpired(st: PairState, t: Time, s: Step)
    requires t <= s.at
    ensures PairStep(Engine.Alive(st, t), s) == PairStep(st, s)
  {
  }

  lemma AliveStep(a: PairState, b: PairState, t: Time, s: Step)
    requires t <= s.at && Engine.Alive(a, t) == Engine.Alive(b, t)
    ensures PairStep(a, s) == PairStep(b, s)
  {
    StepIgnoresExpired(a, t, s);
    StepIgnoresExpired(b, t, s);
  }

  lemma {:induction false} AfterPrefix(a: seq<Act>, b: seq<Act>, n: nat)
    requires n <= |a| && n <= |b| && a[..n] == b[..n]
    ensures StateAfter(a, n) == StateAfter(b, n) && EventsAfter(a, n) == EventsAfter(b, n)
    decreases n
  {
    if n > 0 {
      assert a[..n - 1] == a[..n][..n - 1] && b[..n - 1] == b[..n][..n - 1];
      AfterPrefix(a, b, n - 1);
      assert a[n - 1] == a[..n][n - 1] == b[..n][n - 1] == b[n - 1];
    }
  }

  lemma AfterSnoc(acts: seq<Act>, a: Act)
    ensures StateAfter(acts + [a], |acts| + 1) ==
            if a.Stepping? then PairStep(StateAfter(acts, |acts|), a.step).0
            else Engine.Alive(StateAfter(acts, |acts|), a.time)
    ensures EventsAfter(acts + [a], |acts| + 1) ==
            EventsAfter(acts, |acts|) +
            if a.Stepping? then Engine.Loud(PairStep(StateAfter(acts, |acts|), a.step).1) else []
  {
    assert (acts + [a])[..|acts|] == acts[..|acts|];
    AfterPrefix(acts + [a], acts, |acts|);
    assert EventsAfter(acts, |acts|) + [] == EventsAfter(acts, |acts|);
  }

  /** Two runs that have emitted the same and will not be told apart from time t on. */
  ghost predicate Indistinct(a: seq<Act>, b: seq<Act>, t: Time) {
    && Engine.Alive(StateAfter(a, |a|), t) == Engine.Alive(StateAfter(b, |b|), t)
    && EventsAfter(a, |a|) == EventsAfter(b, |b|)
  }

  lemma SweepKeeps(a: seq<Act>, b: seq<Act>, t: Time, at: Time)
    requires Indistinct(a, b, t) && t <= at
    ensures Indistinct(a + [Sweeping(at)], b, at)
  {
    AfterSnoc(a, Sweeping(at));
    assert EventsAfter(a, |a|) + [] == EventsAfter(a, |a|);
  }

  lemma StepKeeps(a: seq<Act>, b: seq<Act>, t: Time, s: Step, s': Step)
    requires Indistinct(a, b, t) && t <= s.at && SameStep(s, s')
    ensures Indistinct(a + [Stepping(s)], b + [Stepping(s')], s.at)
  {
    AfterSnoc(a, Stepping(s));
    AfterSnoc(b, Stepping(s'));
    AliveStep(StateAfter(a, |a|), StateAfter(b, |b|), t, s);
  }

  /**
   However sweeps are strewn into a chronological run of a pair, and whether its candidates
   came from the index or from a scan, the pair's events are those of the sweepless run.
   */
  lemma {:induction false} SameEventsSweptOrNot(acts: seq<Act>, plain: seq<Act>, t: Time)
    requires Chronological(acts) && SameSteps(Unswept(acts), plain)
    requires forall i :: 0 <= i < |acts| ==> TimeOf(acts[i]) <= t
    ensures Indistinct(acts, plain, t)
    decreases |acts|
  {
    if acts != [] {
      var init, last := acts[..|acts| - 1], acts[|acts| - 1];
      assert acts == init + [last];
      var now := TimeOf(last);
      if last.Stepping? {
        var front, s' := plain[..|plain| - 1], plain[|plain| - 1].step;
        assert plain == front + [Stepping(s')];
        SameStepsInit(Unswept(init), last, front, Stepping(s'));
        SameEventsSweptOrNot(init, front, now);
        StepKeeps(init, front, now, last.step, s');
      } else {
        SameEventsSweptOrNot(init, plain, now);
        SweepKeeps(init, plain, now, now);
      }
      Later(acts, plain, now, t);
    }
  }

  lemma Later(a: seq<Act>, b: seq<Act>, now: Time, t: Time)
    requires Indistinct(a, b, now) && now <= t
    ensures Indistinct(a, b, t)
  {
  }

  // ---------------------------------------------------------------------------
  // Calls of the engine
  // ---------------------------------------------------------------------------

  datatype EngineCall =
    | Publish(trackables: seq<string>, scene: Engine.Scene)
    | ForgetAll(trackable: string, at: Time)
    | SweepAll(time: Time)

  function CallTime(c: EngineCall): Time {
    match c
    case Publish(_, scene) => scene.now
    case ForgetAll(_, at) => at
    case SweepAll(t) => t
  }

  ghost predicate ChronologicalCalls(calls: seq<EngineCall>) {
    forall i, j :: 0 <= i < j < |calls| ==> CallTime(calls[i]) <= CallTime(calls[j])
  }

  function Copies(a: Act, k: nat): seq<Act> {
    if k == 0 then [] else Copies(a, k - 1) + [a]
  }

  /** What a call means for one pair. */
  function ActsOf(c: EngineCall, p: Pair): seq<Act> {
    match c
    case Publish(ts, scene) => Copies(Stepping(Engine.StepOf(scene, p)), Engine.Count(ts, p.0))
    case ForgetAll(t, at) => if p.0 == t then [Stepping(Step.Forget(at))] else []
    case SweepAll(t) => [Sweeping(t)]
  }

  function ActsFor(calls: seq<EngineCall>, p: Pair): seq<Act> {
    if calls == [] then [] else ActsFor(calls[..|calls| - 1], p) + ActsOf(calls[|calls| - 1], p)
  }

  lemma ActsSnoc(calls: seq<EngineCall>, c: EngineCall, p: Pair)
    ensures ActsFor(calls + [c], p) == ActsFor(calls, p) + ActsOf(c, p)
  {
    assert (calls + [c])[..|calls|] == calls;
  }

  // ---------------------------------------------------------------------------
  // Every call is its acts
  // ---------------------------------------------------------------------------

  /** The engine stands where the pair's own acts lead, and has emitted for it what they emit. */
  ghost predicate OwnRun(m: Engine.Memberships, events: seq<Engine.FenceEvent>, acts: seq<Act>, p: Pair) {
    Engine.Stored(m, p) == StateAfter(acts, |acts|) && Engine.KindsOf(events, p) == EventsAfter(acts, |acts|)
  }

  ghost predicate OwnFor(m: Engine.Memberships, events: seq<Engine.FenceEvent>, calls: seq<EngineCall>, p: Pair) {
    OwnRun(m, events, ActsFor(calls, p), p)
  }

  lemma AppendStep(acts: seq<Act>, s: Step, st: PairState, events: seq<Outcome>, kinds: seq<Outcome>)
    requires StateAfter(acts, |acts|) == st && EventsAfter(acts, |acts|) == events + kinds
    ensures var all := acts + [Stepping(s)];
            && StateAfter(all, |all|) == PairStep(st, s).0
            && EventsAfter(all, |all|) == events + (kinds + Engine.Loud(PairStep(st, s).1))
  {
    AfterSnoc(acts, Stepping(s));
  }

  /** Equal acts in a row are equal steps in a row. */
  lemma {:induction false} CopiesRun(acts: seq<Act>, s: Step, k: nat)
    ensures var all, repeated := acts + Copies(Stepping(s), k), Engine.Repeat(StateAfter(acts, |acts|), s, k);
            StateAfter(all, |all|) == repeated.0 && EventsAfter(all, |all|) == EventsAfter(acts, |acts|) + repeated.1
    decreases k
  {
    if k == 0 {
      assert acts + [] == acts && EventsAfter(acts, |acts|) + [] == EventsAfter(acts, |acts|);
    } else {
      CopiesRun(acts, s, k - 1);
      var before, repeated := acts + Copies(Stepping(s), k - 1), Engine.Repeat(StateAfter(acts, |acts|), s, k - 1);
      AppendStep(before, s, repeated.0, EventsAfter(acts, |acts|), repeated.1);
      assert acts + Copies(Stepping(s), k) == before + [Stepping(s)];
    }
  }

  lemma PublishOwn(m0: Engine.Memberships, m1: Engine.Memberships, events: seq<Engine.FenceEvent>,
                   added: seq<Engine.FenceEvent>, acts: seq<Act>, c: EngineCall, p: Pair)
    requires c.Publish? && OwnRun(m0, events, acts, p)
    requires Engine.Repeated(m0, m1, added, c.scene, p, Engine.Count(c.trackables, p.0))
    ensures OwnRun(m1, events + added, acts + ActsOf(c, p), p)
  {
    CopiesRun(acts, Engine.StepOf(c.scene, p), Engine.Count(c.trackables, p.0));
    Engine.KindsConcat(events, added, p);
  }

  lemma ForgetOwn(m0: Engine.Memberships, m1: Engine.Memberships, events: seq<Engine.FenceEvent>, acts: seq<Act>,
                  c: EngineCall, p: Pair)
    requires c.ForgetAll? && OwnRun(m0, events, acts, p)
    requires Engine.Stored(m1, p) ==
             if p.0 == c.trackable then PairStep(Engine.Stored(m0, p), Forget(c.at)).0 else Engine.Stored(m0, p)
    ensures OwnRun(m1, events, acts + ActsOf(c, p), p)
  {
    if p.0 == c.trackable {
      AfterSnoc(acts, Stepping(Step.Forget(c.at)));
      assert EventsAfter(acts, |acts|) + [] == EventsAfter(acts, |acts|);
    } else {
      assert acts + [] == acts;
    }
  }

  /** Sweeping all memberships is sweeping each pair. */
  lemma SweptIsAlive(m: Engine.Memberships, t: Time, p: Pair)
    ensures Engine.Stored(LiveMap(m, t), p) == Engine.Alive(Engine.Stored(m, p), t)
  {
  }

  lemma SweepOwn(m: Engine.Memberships, events: seq<Engine.FenceEvent>, acts: seq<Act>, t: Time, p: Pair)
    requires OwnRun(m, events, acts, p)
    ensures OwnRun(LiveMap(m, t), events, acts + [Sweeping(t)], p)
  {
    SweptIsAlive(m, t, p);
    AfterSnoc(acts, Sweeping(t));
    assert EventsAfter(acts, |acts|) + [] == EventsAfter(acts, |acts|);
  }

  // ---------------------------------------------------------------------------
  // The run of a pair without sweeps
  // ---------------------------------------------------------------------------

  /** The steps among the acts of a pair. */
  function Steps(acts: seq<Act>): seq<Step> {
    if acts == [] then []
    else if acts[|acts| - 1].Stepping? then Steps(acts[..|acts| - 1]) + [acts[|acts| - 1].step]
    else Steps(acts[..|acts| - 1])
  }

  /** The events of a run of the pair's state machine. */
  function RunEvents(run: seq<Step>, n: nat): seq<Outcome>
    requires n <= |run|
  {
    if n == 0 then [] else RunEvents(run, n - 1) + Engine.Loud(Emitted(run, n - 1))
  }

  lemma {:induction false} RunPrefix(a: seq<Step>, b: seq<Step>, n: nat)
    requires n <= |a| && n <= |b| && a[..n] == b[..n]
    ensures Before(a, n) == Before(b, n) && RunEvents(a, n) == RunEvents(b, n)
    decreases n
  {
    if n > 0 {
      assert a[..n - 1] == a[..n][..n - 1] && b[..n - 1] == b[..n][..n - 1];
      RunPrefix(a, b, n - 1);
      assert a[n - 1] == a[..n][n - 1] == b[..n][n - 1] == b[n - 1];
    }
  }

  lemma RunSnoc(run: seq<Step>, s: Step)
    ensures Before(run + [s], |run| + 1) == PairStep(Before(run, |run|), s).0
    ensures RunEvents(run + [s], |run| + 1) ==
            RunEvents(run, |run|) + Engine.Loud(PairStep(Before(run, |run|), s).1)
  {
    assert (run + [s])[..|run|] == run[..|run|];
    RunPrefix(run + [s], run, |run|);
  }

  /** Acts without sweeps are a run of the state machine. */
  lemma {:induction false} UnsweptIsRun(acts: seq<Act>)
    ensures var plain, run := Unswept(acts), Steps(acts);
            && StateAfter(plain, |plain|) == Before(run, |run|)
            && EventsAfter(plain, |plain|) == RunEvents(run, |run|)
            && SameSteps(plain, plain)
    decreases |acts|
  {
    if acts != [] {
      var init, last := acts[..|acts| - 1], acts[|acts| - 1];
      UnsweptIsRun(init);
      if last.Stepping? {
        AfterSnoc(Unswept(init), last);
        RunSnoc(Steps(init), last.step);
      }
    }
  }

  /** Sweeps or not, the acts of a pair emit what the steps among them emit. */
  lemma ActsEmitRun(acts: seq<Act>, t: Time)
    requires Chronological(acts) && forall i :: 0 <= i < |acts| ==> TimeOf(acts[i]) <= t
    ensures EventsAfter(acts, |acts|) == RunEvents(Steps(acts), |Steps(acts)|)
  {
    UnsweptIsRun(acts);
    SameEventsSweptOrNot(acts, Unswept(acts), t);
  }

  ghost predicate AllAt(acts: seq<Act>, t: Time) {
    forall i :: 0 <= i < |acts| ==> TimeOf(acts[i]) == t
  }

  lemma {:induction false} CopiesAt(a: Act, k: nat)
    ensures AllAt(Copies(a, k), TimeOf(a))
  {
    if k > 0 {
      CopiesAt(a, k - 1);
    }
  }

  lemma ActsOfAt(c: EngineCall, p: Pair)
    ensures AllAt(ActsOf(c, p), CallTime(c))
  {
    if c.Publish? {
      CopiesAt(Stepping(Engine.StepOf(c.scene, p)), Engine.Count(c.trackables, p.0));
    }
  }

  ghost predicate NotAfter(acts: seq<Act>, t: Time) {
    forall i :: 0 <= i < |acts| ==> TimeOf(acts[i]) <= t
  }

  lemma JoinInTime(a: seq<Act>, b: seq<Act>, s: Time, t: Time)
    requires Chronological(a) && NotAfter(a, s) && s <= t && AllAt(b, t)
    ensures Chronological(a + b) && NotAfter(a + b, t)
  {
  }

  lemma {:induction false} ActsInTime(calls: seq<EngineCall>, p: Pair)
    requires ChronologicalCalls(calls)
    ensures Chronological(ActsFor(calls, p))
    ensures calls != [] ==> NotAfter(ActsFor(calls, p), CallTime(calls[|calls| - 1]))
    decreases |calls|
  {
    if calls != [] {
      var init, last := calls[..|calls| - 1], calls[|calls| - 1];
      ActsInTime(init, p);
      ActsOfAt(last, p);
      var s := if init != [] then CallTime(init[|init| - 1]) else CallTime(last);
      assert init != [] ==> s == CallTime(calls[|calls| - 2]);
      JoinInTime(ActsFor(init, p), ActsOf(last, p), s, CallTime(last));
    }
  }

  /** The steps a run of the engine takes for one pair. */
  function OwnSteps(calls: seq<EngineCall>, p: Pair): seq<Step> {
    Steps(ActsFor(calls, p))
  }

  lemma OwnEvents(m: Engine.Memberships, events: seq<Engine.FenceEvent>, calls: seq<EngineCall>, p: Pair)
    requires ChronologicalCalls(calls) && OwnFor(m, events, calls, p)
    ensures Engine.KindsOf(events, p) == RunEvents(OwnSteps(calls, p), |OwnSteps(calls, p)|)
  {
    ActsInTime(calls, p);
    ActsEmitRun(ActsFor(calls, p), if calls == [] then 0 else CallTime(calls[|calls| - 1]));
  }

  // ---------------------------------------------------------------------------
  // The engine over a whole run
  // ---------------------------------------------------------------------------

  method PerformOne(engine: Engine.FenceEngine, c: EngineCall, ghost done: seq<EngineCall>)
    requires forall p: Pair :: OwnFor(engine.memberships, engine.events, done, p)
    modifies engine
    ensures forall p: Pair :: OwnFor(engine.memberships, engine.events, done + [c], p)
  {
    ghost var m0, e0 := engine.memberships, engine.events;
    match c {
      case Publish(ts, scene) =>
        engine.PublishFenceEvents(ts, scene);
        assert engine.events == e0 + engine.events[|e0|..];
        forall p: Pair ensures OwnFor(engine.memberships, engine.events, done + [c], p) {
          ActsSnoc(done, c, p);
          assert OwnFor(m0, e0, done, p);
          PublishOwn(m0, engine.memberships, e0, engine.events[|e0|..], ActsFor(done, p), c, p);
        }
      case ForgetAll(t, at) =>
        engine.ForgetTrackable(t, at);
        forall p: Pair ensures OwnFor(engine.memberships, engine.events, done + [c], p) {
          ActsSnoc(done, c, p);
          assert OwnFor(m0, e0, done, p);
          ForgetOwn(m0, engine.memberships, e0, ActsFor(done, p), c, p);
        }
      case SweepAll(t) =>
        engine.Sweep(t);
        forall p: Pair ensures OwnFor(engine.memberships, engine.events, done + [c], p) {
          ActsSnoc(done, c, p);
          assert OwnFor(m0, e0, done, p);
          SweepOwn(m0, e0, ActsFor(done, p), t, p);
        }
    }
  }

  /**
   For every sequence of calls on a new engine, the events of every pair are those of the
   pair's own run of its state machine, in which sweeps play no part.
   */
  method Perform(calls: seq<EngineCall>) returns (engine: Engine.FenceEngine)
    ensures forall p: Pair :: OwnFor(engine.memberships, engine.events, calls, p)
    ensures ChronologicalCalls(calls) ==>
              forall p: Pair :: Engine.KindsOf(engine.events, p) == RunEvents(OwnSteps(calls, p), |OwnSteps(calls, p)|)
  {
    engine := new Engine.FenceEngine();
    for n := 0 to |calls|
      invariant fresh(engine)
      invariant forall p: Pair :: OwnFor(engine.memberships, engine.events, calls[..n], p)
    {
      PerformOne(engine, calls[n], calls[..n]);
      assert calls[..n] + [calls[n]] == calls[..n + 1];
    }
    assert calls[..|calls|] == calls;
    if ChronologicalCalls(calls) {
      forall p: Pair
        ensures Engine.KindsOf(engine.events, p) == RunEvents(OwnSteps(calls, p), |OwnSteps(calls, p)|)
      {
        OwnEvents(engine.memberships, engine.events, calls, p);
      }
    }
  }
}
