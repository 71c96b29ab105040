/** Runs in which a subscriber loses or reorders events that it accepted. */
module EventRaces {
  import opened Wrappers
  import opened Sequences
  import opened EventBus
  import opened KeyMoves
  import opened EventOrder

  /** The gap at work: the flusher sends and removes around a newer event, which is accepted and lost. */
  function LosingRun(e0: Event, e1: Event, e2: Event): seq<Step> {
    [BeginStep(e0), TryStep(0), ClearStep(0), BeginStep(e1), TryStep(0), EnqueueStep(0), ReceiveStep,
     PeekStep, BeginStep(e2), SendStep, RemoveStep]
  }

  lemma LosingFirst(e0: Event, e1: Event, e2: Event, k: string)
    requires e0.key == Some(k)
    ensures After(1, LosingRun(e0, e1, e2), 3) == Bus(Sub(1, [e0], map[], []), Idle, [], [e0], [e0], [], [])
  {
    var run := LosingRun(e0, e1, e2);
    assert After(1, run, 1) == Bus(Sub(1, [], map[], []), Idle, [Emission(k, e0, Trying)], [], [], [], []);
    assert After(1, run, 2) == Bus(Sub(1, [e0], map[], []), Idle, [Emission(k, e0, Clearing)], [e0], [e0], [], []);
  }

  lemma LosingSecond(e0: Event, e1: Event, e2: Event, k: string)
    requires e0.key == e1.key == Some(k)
    ensures After(1, LosingRun(e0, e1, e2), 6) == Bus(Sub(1, [e0], map[k := e1], [k]), Idle, [], [e0], [e0, e1], [], [])
  {
    var run := LosingRun(e0, e1, e2);
    LosingFirst(e0, e1, e2, k);
    assert After(1, run, 4) == Bus(Sub(1, [e0], map[], []), Idle, [Emission(k, e1, Trying)], [e0], [e0], [], []);
    assert After(1, run, 5) == Bus(Sub(1, [e0], map[], []), Idle, [Emission(k, e1, Queueing)], [e0], [e0], [], []);
  }

  lemma LosingThird(e0: Event, e1: Event, e2: Event, k: string)
    requires e0.key == e1.key == e2.key == Some(k)
    ensures After(1, LosingRun(e0, e1, e2), 9) ==
            Bus(Sub(1, [], map[k := e2], [k]), Peeked(k, e1), [], [e0], [e0, e1, e2], [], [e0])
  {
    var run := LosingRun(e0, e1, e2);
    LosingSecond(e0, e1, e2, k);
    assert After(1, run, 7) == Bus(Sub(1, [], map[k := e1], [k]), Idle, [], [e0], [e0, e1], [], [e0]);
    assert After(1, run, 8) == Bus(Sub(1, [], map[k := e1], [k]), Peeked(k, e1), [], [e0], [e0, e1], [], [e0]);
  }

  /** Each delivery comes alone, nothing is dropped, and the last event accepted is gone. */
  lemma LatestLost(e0: Event, e1: Event, e2: Event, k: string)
    requires e0.key == e1.key == e2.key == Some(k)
    ensures var b := After(1, LosingRun(e0, e1, e2), 11);
            && b.accepted == [e0, e1, e2] && b.sent == [e0, e1] && b.sub.pending == map[]
            && b.dropped == [] && b.emissions == [] && b.flight == Idle
  {
    var run := LosingRun(e0, e1, e2);
    LosingThird(e0, e1, e2, k);
    assert After(1, run, 10) ==
           Bus(Sub(1, [e1], map[k := e2], [k]), Gone(k, e1), [], [e0, e1], [e0, e1, e2], [], [e0]);
  }

  /** Two emitters of one key: the clearing of a direct send takes the other's event out of the backlog. */
  function RacingRun(e0: Event, e1: Event): seq<Step> {
    [BeginStep(e0), BeginStep(e1), TryStep(0), TryStep(1), EnqueueStep(1), ClearStep(0)]
  }

  lemma RacingPrefix(e0: Event, e1: Event, k: string)
    requires e0.key == e1.key == Some(k)
    ensures After(1, RacingRun(e0, e1), 3) ==
            Bus(Sub(1, [e0], map[], []), Idle, [Emission(k, e0, Clearing), Emission(k, e1, Trying)], [e0], [e0], [], [])
  {
    var run := RacingRun(e0, e1);
    var s := Sub(1, [], map[], []);
    assert After(1, run, 1) == Bus(s, Idle, [Emission(k, e0, Trying)], [], [], [], []);
    assert After(1, run, 2) == Bus(s, Idle, [Emission(k, e0, Trying), Emission(k, e1, Trying)], [], [], [], []);
  }

  lemma RacingMiddle(e0: Event, e1: Event, k: string)
    requires e0.key == e1.key == Some(k)
    ensures After(1, RacingRun(e0, e1), 5) ==
            Bus(Sub(1, [e0], map[k := e1], [k]), Idle, [Emission(k, e0, Clearing)], [e0], [e0, e1], [], [])
  {
    var run := RacingRun(e0, e1);
    RacingPrefix(e0, e1, k);
    assert After(1, run, 4) ==
           Bus(Sub(1, [e0], map[], []), Idle, [Emission(k, e0, Clearing), Emission(k, e1, Queueing)],
               [e0], [e0], [], []);
  }

  lemma TwoEmittersLose(e0: Event, e1: Event, k: string)
    requires e0.key == e1.key == Some(k)
    ensures var b := After(1, RacingRun(e0, e1), 6);
            && b.accepted == [e0, e1] && b.sent == [e0] && b.sub.pending == map[]
            && b.dropped == [] && b.emissions == [] && b.flight == Idle
  {
    RacingMiddle(e0, e1, k);
  }

  /**
   Two emitters of one key out of order: the first finds room while the second's event
   waits in the flusher's hands.
   */
  function OvertakingRun(x: Event, a: Event, b: Event): seq<Step> {
    [BeginStep(a), BeginStep(x), BeginStep(b), TryStep(1), EnqueueStep(1), PeekStep,
     ReceiveStep, TryStep(0), ReceiveStep, SendStep]
  }

  lemma OvertakingFirst(x: Event, a: Event, b: Event, k: string)
    requires x.key == None && a.key == b.key == Some(k)
    ensures After(1, OvertakingRun(x, a, b), 3) ==
            Bus(Sub(1, [x], map[], []), Idle, [Emission(k, a, Trying), Emission(k, b, Trying)], [x], [x], [], [])
  {
    var run := OvertakingRun(x, a, b);
    assert After(1, run, 1) == Bus(Sub(1, [], map[], []), Idle, [Emission(k, a, Trying)], [], [], [], []);
    assert After(1, run, 2) == Bus(Sub(1, [x], map[], []), Idle, [Emission(k, a, Trying)], [x], [x], [], []);
  }

  lemma OvertakingQueued(x: Event, a: Event, b: Event, k: string)
    requires x.key == None && a.key == b.key == Some(k)
    ensures After(1, OvertakingRun(x, a, b), 4) ==
            Bus(Sub(1, [x], map[], []), Idle, [Emission(k, a, Trying), Emission(k, b, Queueing)], [x], [x], [], [])
  {
    OvertakingFirst(x, a, b, k);
  }

  lemma OvertakingSecond(x: Event, a: Event, b: Event, k: string)
    requires x.key == None && a.key == b.key == Some(k)
    ensures After(1, OvertakingRun(x, a, b), 6) ==
            Bus(Sub(1, [x], map[k := b], [k]), Peeked(k, b), [Emission(k, a, Trying)], [x], [x, b], [], [])
  {
    var run := OvertakingRun(x, a, b);
    OvertakingQueued(x, a, b, k);
    var es := [Emission(k, a, Trying), Emission(k, b, Queueing)];
    assert Without(es, 1) == [Emission(k, a, Trying)];
    assert After(1, run, 5) == Bus(Sub(1, [x], map[k := b], [k]), Idle, [Emission(k, a, Trying)], [x], [x, b], [], []);
  }

  lemma OvertakingThird(x: Event, a: Event, b: Event, k: string)
    requires x.key == None && a.key == b.key == Some(k)
    ensures After(1, OvertakingRun(x, a, b), 8) ==
            Bus(Sub(1, [a], map[k := b], [k]), Peeked(k, b), [Emission(k, a, Clearing)], [x, a], [x, b, a], [], [x])
  {
    var run := OvertakingRun(x, a, b);
    OvertakingSecond(x, a, b, k);
    assert After(1, run, 7) ==
           Bus(Sub(1, [], map[k := b], [k]), Peeked(k, b), [Emission(k, a, Trying)], [x], [x, b], [], [x]);
  }

  lemma OvertakingLast(x: Event, a: Event, b: Event, k: string)
    requires x.key == None && a.key == b.key == Some(k)
    ensures After(1, OvertakingRun(x, a, b), 10) ==
            Bus(Sub(1, [b], map[k := b], [k]), Gone(k, b), [Emission(k, a, Clearing)], [x, a, b], [x, b, a], [], [x, a])
  {
    var run := OvertakingRun(x, a, b);
    OvertakingThird(x, a, b, k);
    assert After(1, run, 9) ==
           Bus(Sub(1, [], map[k := b], [k]), Peeked(k, b), [Emission(k, a, Clearing)], [x, a], [x, b, a], [], [x, a]);
  }

  /** Accepted b before a, sent a before b. */
  lemma TwoEmittersReorder(x: Event, a: Event, b: Event, k: string)
    requires x.key == None && a.key == b.key == Some(k) && a != b
    ensures var bus := After(1, OvertakingRun(x, a, b), 10);
            bus.accepted == [x, b, a] && bus.sent == [x, a, b] && !OrderedAt(bus, k)
  {
    OvertakingLast(x, a, b, k);
    FilterOf([x], a, b, k);
    FilterOf([x], b, a, k);
    assert [x] + [a, b] == [x, a, b] && [x] + [b, a] == [x, b, a];
    var v := View([a, b], [b, a], Some(b), GoneFor(b));
    assert ViewOf(After(1, OvertakingRun(x, a, b), 10), k) == v;
    assert Line(v) == [a, b] + [] == [a, b];
    NotSubsequence(a, b);
  }

  lemma FilterOf(s: seq<Event>, a: Event, b: Event, k: string)
    requires |s| == 1 && s[0].key == None && a.key == b.key == Some(k)
    ensures Filter(s + [a, b], KeyTest(k)) == [a, b]
  {
    assert s + [a, b] == s + [a] + [b];
    FilterSnoc(s, a, KeyTest(k));
    FilterSnoc(s + [a], b, KeyTest(k));
    assert s[..0] == [];
    assert Filter(s, KeyTest(k)) == [];
  }

  lemma NotSubsequence(a: Event, b: Event)
    requires a != b
    ensures !Subsequence([a, b], [b, a])
  {
    assert [b, a][..1] == [b] && [b][..0] == [] && [a, b][..1] == [a];
    assert !Subsequence([a, b], [b]);
  }
}
