/**
 Fence evaluation of one location: every trackable it names against every candidate fence
 and every fence the trackable is still inside. For each single pair this is one step of
 the pair's state machine per occurrence of the trackable.
 */
module FenceEngine {
  import opened Wrappers
  import opened ProcessingState
  import opened FenceRules

  /** What the metadata says about a fence that is not a candidate of the location. */
  datatype Known = Known(containment: Containment, floorMatches: bool)

  /** One call: the candidates of the location, the other known fences and the exit policies. */
  datatype Scene = Scene(
    now: Time,
    ttl: Time,
    candidates: map<string, Containment>,
    known: map<string, Known>,
    policy: Pair -> Policy)

  function LookAt(scene: Scene, fence: string): Look {
    if fence in scene.candidates then Candidate(scene.candidates[fence])
    else if fence in scene.known then Elsewhere(scene.known[fence].containment, scene.known[fence].floorMatches)
    else Gone
  }

  function StepOf(scene: Scene, p: Pair): Step {
    Step.Call(scene.now, LookAt(scene, p.1), scene.policy(p), scene.ttl)
  }

  datatype FenceEvent = FenceEvent(pair: Pair, kind: Outcome, at: Time)

  function Stored(m: map<Pair, Expiring<Timers>>, p: Pair): PairState {
    if p in m then Some(m[p]) else None
  }

  /** The kinds of the events of one pair, in order. */
  function KindsOf(events: seq<FenceEvent>, p: Pair): seq<Outcome> {
    if events == [] then [] else
      var init, e := events[..|events| - 1], events[|events| - 1];
      if e.pair == p then KindsOf(init, p) + [e.kind] else KindsOf(init, p)
  }

  function Loud(o: Outcome): seq<Outcome> {
    if o == Silent then [] else [o]
  }

  lemma KindsSnoc(events: seq<FenceEvent>, e: FenceEvent, p: Pair)
    ensures KindsOf(events + [e], p) == if e.pair == p then KindsOf(events, p) + [e.kind] else KindsOf(events, p)
  {
  }

  /** k equal steps in a row: the state reached and the events on the way. */
  function Repeat(st: PairState, s: Step, k: nat): (PairState, seq<Outcome>) {
    if k == 0 then (st, []) else
      var (st1, before) := Repeat(st, s, k - 1);
      var (st2, o) := PairStep(st1, s);
      (st2, before + Loud(o))
  }

  function Count(ts: seq<string>, t: string): nat {
    if ts == [] then 0 else Count(ts[..|ts| - 1], t) + if ts[|ts| - 1] == t then 1 else 0
  }

  /** Expired memberships are dropped before anything is tested. */
  function Alive(st: PairState, now: Time): PairState {
    if Active(st, now) then st else None
  }

  lemma ObserveAlive(st: PairState, c: Containment, p: Policy, now: Time, ttl: Time)
    ensures Observe(Alive(st, now), c, p, now, ttl) == Observe(st, c, p, now, ttl)
  {
  }

  type Memberships = map<Pair, Expiring<Timers>>

  /** The fences a trackable is inside of, dropping expired memberships on the way. */
  method ActiveFences(m: Memberships, t: string, now: Time) returns (kept: Memberships, active: set<string>)
    ensures forall f :: f in active <==> Active(Stored(m, (t, f)), now)
    ensures forall p: Pair :: Stored(kept, p) == if p.0 == t then Alive(Stored(m, p), now) else Stored(m, p)
  {
    var pairs;
    kept, pairs := ListMemberships(m, t, now);
    active := set p | p in pairs :: p.1;
    forall f ensures f in active <==> Active(Stored(m, (t, f)), now) {
      if f in active {
        var p :| p in pairs && p.1 == f;
        assert p == (t, f);
      }
      if Active(Stored(m, (t, f)), now) {
        assert (t, f) in pairs;
      }
    }
  }

  /** How the gathering loop disposes of one fence. */
  ghost predicate Gathered(kept: Memberships, m: Memberships, tested: map<string, Containment>, active: set<string>,
                           t: string, scene: Scene, f: string)
  {
    if f in scene.candidates then
      f in tested && tested[f] == scene.candidates[f] && Stored(m, (t, f)) == Stored(kept, (t, f))
    else if f in active && f in scene.known && scene.known[f].floorMatches then
      f in tested && tested[f] == scene.known[f].containment && Stored(m, (t, f)) == Stored(kept, (t, f))
    else if f in active then f !in tested && Stored(m, (t, f)) == None
    else f !in tested && Stored(m, (t, f)) == Stored(kept, (t, f))
  }

  /** Which fences of a trackable are tested, and against what; its other active fences are cleared. */
  method GatherCandidates(kept: Memberships, active: set<string>, t: string, scene: Scene)
    returns (m: Memberships, tested: map<string, Containment>)
    ensures forall p: Pair :: p.0 != t ==> Stored(m, p) == Stored(kept, p)
    ensures forall f :: Gathered(kept, m, tested, active, t, scene, f)
  {
    m, tested := kept, scene.candidates;
    var todo := active;
    while todo != {}
      invariant todo <= active
      invariant forall p: Pair :: p.0 != t ==> Stored(m, p) == Stored(kept, p)
      invariant forall f :: Gathered(kept, m, tested, active - todo, t, scene, f)
      decreases todo
    {
      var f :| f in todo;
      assert Gathered(kept, m, tested, active - todo, t, scene, f);
      var m', tested' := m, tested;
      if f !in scene.candidates {
        if f !in scene.known || !scene.known[f].floorMatches {
          m' := m - {(t, f)};
        } else {
          tested' := tested[f := scene.known[f].containment];
        }
      }
      forall g ensures Gathered(kept, m', tested', active - (todo - {f}), t, scene, g) {
        assert Gathered(kept, m, tested, active - todo, t, scene, g);
      }
      m, tested, todo := m', tested', todo - {f};
    }
    assert active - {} == active;
  }

  /** The pair has made its step, and its event is among the added ones. */
  ghost predicate Stepped(m0: Memberships, m: Memberships, added: seq<FenceEvent>, scene: Scene, p: Pair) {
    var (st, o) := PairStep(Stored(m0, p), StepOf(scene, p));
    Stored(m, p) == st && KindsOf(added, p) == Loud(o)
  }

  /** The pair has not been reached yet. */
  ghost predicate Waiting(m1: Memberships, m: Memberships, added: seq<FenceEvent>, p: Pair) {
    Stored(m, p) == Stored(m1, p) && KindsOf(added, p) == []
  }

  /** A fence to test holds its live membership; any other has made its step. */
  ghost predicate ReadyToTest(m0: Memberships, m: Memberships, tested: map<string, Containment>, active: set<string>,
                              scene: Scene, p: Pair)
  {
    var st := Stored(m0, p);
    && (p.1 in active <==> Active(st, scene.now))
    && if p.1 in tested then
         Observed(st, StepOf(scene, p)) == Some(tested[p.1]) && Stored(m, p) == Alive(st, scene.now)
       else Stepped(m0, m, [], scene, p)
  }

  /** After gathering, tested fences are ready for their step and the others have made it. */
  lemma GatheringIsSound(m0: Memberships, kept: Memberships, m: Memberships, tested: map<string, Containment>,
                         active: set<string>, t: string, scene: Scene, f: string)
    requires f in active <==> Active(Stored(m0, (t, f)), scene.now)
    requires Stored(kept, (t, f)) == Alive(Stored(m0, (t, f)), scene.now)
    requires Gathered(kept, m, tested, active, t, scene, f)
    ensures ReadyToTest(m0, m, tested, active, scene, (t, f))
  {
  }

  /** Kinds after at most one more event, which belongs to pair. */
  lemma KindsAfter(before: seq<FenceEvent>, pair: Pair, o: Outcome, at: Time, p: Pair)
    ensures var added := before + if o == Silent then [] else [FenceEvent(pair, o, at)];
            KindsOf(added, p) == if p == pair then KindsOf(before, p) + Loud(o) else KindsOf(before, p)
  {
    if o == Silent {
      assert before + [] == before;
    } else {
      KindsSnoc(before, FenceEvent(pair, o, at), p);
    }
  }

  /** Where a pair stands while the fences in `todo` are still to be tested. */
  ghost predicate Underway(m0: Memberships, m1: Memberships, m: Memberships, added: seq<FenceEvent>, scene: Scene,
                           t: string, todo: set<string>, p: Pair)
  {
    if p.0 == t && p.1 !in todo then Stepped(m0, m, added, scene, p) else Waiting(m1, m, added, p)
  }

  /** One pair's step, and every other pair as it was. */
  lemma UnderwayNext(m0: Memberships, m1: Memberships, m2: Memberships, m3: Memberships, before: seq<FenceEvent>,
                     scene: Scene, t: string, todo: set<string>, f: string, p: Pair)
    requires f in todo && Underway(m0, m1, m2, before, scene, t, todo, p)
    requires var step := PairStep(Stored(m0, (t, f)), StepOf(scene, (t, f)));
             if p == (t, f) then Stored(m3, p) == step.0 else Stored(m3, p) == Stored(m2, p)
    ensures var o := PairStep(Stored(m0, (t, f)), StepOf(scene, (t, f))).1;
            var added := before + if o == Silent then [] else [FenceEvent((t, f), o, scene.now)];
            Underway(m0, m1, m3, added, scene, t, todo - {f}, p)
  {
    var o := PairStep(Stored(m0, (t, f)), StepOf(scene, (t, f))).1;
    KindsAfter(before, (t, f), o, scene.now, p);
    assert [] + Loud(o) == Loud(o);
  }

  lemma {:induction false} KindsConcat(a: seq<FenceEvent>, b: seq<FenceEvent>, p: Pair)
    ensures KindsOf(a + b, p) == KindsOf(a, p) + KindsOf(b, p)
  {
    if b == [] {
      assert a + b == a;
    } else {
      var init, e := b[..|b| - 1], b[|b| - 1];
      assert a + b == (a + init) + [e];
      KindsSnoc(a + init, e, p);
      KindsConcat(a, init, p);
    }
  }

  /** The pair has made k steps, and exactly their events are among the added ones. */
  ghost predicate Repeated(m0: Memberships, m: Memberships, added: seq<FenceEvent>, scene: Scene, p: Pair, k: nat) {
    var (st, kinds) := Repeat(Stored(m0, p), StepOf(scene, p), k);
    Stored(m, p) == st && KindsOf(added, p) == kinds
  }

  ghost predicate Evaluated(m1: Memberships, m2: Memberships, added: seq<FenceEvent>, scene: Scene, t: string,
                            p: Pair) {
    if p.0 == t then Stepped(m1, m2, added, scene, p) else Waiting(m1, m2, added, p)
  }

  lemma OneRepeated(m0: Memberships, m1: Memberships, m2: Memberships, before: seq<FenceEvent>, added: seq<FenceEvent>,
                    scene: Scene, ts: seq<string>, t: string, p: Pair)
    requires Repeated(m0, m1, before, scene, p, Count(ts, p.0)) && Evaluated(m1, m2, added, scene, t, p)
    ensures Repeated(m0, m2, before + added, scene, p, Count(ts + [t], p.0))
  {
    KindsConcat(before, added, p);
    assert (ts + [t])[..|ts|] == ts;
  }

  lemma AllRepeated(m0: Memberships, m1: Memberships, m2: Memberships, before: seq<FenceEvent>, added: seq<FenceEvent>,
                    scene: Scene, ts: seq<string>, t: string)
    requires forall p: Pair :: Repeated(m0, m1, before, scene, p, Count(ts, p.0))
    requires forall p: Pair :: Evaluated(m1, m2, added, scene, t, p)
    ensures forall p: Pair :: Repeated(m0, m2, before + added, scene, p, Count(ts + [t], p.0))
  {
    forall p: Pair ensures Repeated(m0, m2, before + added, scene, p, Count(ts + [t], p.0)) {
      OneRepeated(m0, m1, m2, before, added, scene, ts, t, p);
    }
  }

  class FenceEngine {
    var memberships: map<Pair, Expiring<Timers>>
    var events: seq<FenceEvent>

    constructor ()
      ensures memberships == map[] && events == []
    {
      memberships, events := map[], [];
    }

    method Emit(pair: Pair, kind: Outcome, at: Time)
      modifies this`events
      ensures events == old(events) + [FenceEvent(pair, kind, at)]
    {
      events := events + [FenceEvent(pair, kind, at)];
    }

    /** The switch at the heart of the evaluation. */
    method ObservePair(pair: Pair, c: Containment, policy: Policy, now: Time, ttl: Time, wasInside: bool)
      requires wasInside <==> Active(Stored(memberships, pair), now)
      requires pair in memberships ==> wasInside
      modifies this
      ensures var (st, o) := Observe(Stored(old(memberships), pair), c, policy, now, ttl);
              && Stored(memberships, pair) == st
              && (forall q :: q != pair ==> Stored(memberships, q) == Stored(old(memberships), q))
              && events == old(events) + if o == Silent then [] else [FenceEvent(pair, o, now)]
      ensures c.inside ==> Stored(memberships, pair) == Some(Expiring(Timers(None, None), now + ttl))
      ensures c.inside ==> events == old(events) + if wasInside then [] else [FenceEvent(pair, Entry, now)]
      ensures !c.inside && !wasInside ==> memberships == old(memberships) && events == old(events)
      ensures !c.inside && wasInside && !ExitReady(c, policy, now, old(memberships)[pair].value).0 ==>
                && events == old(events) && pair in memberships && memberships[pair].expiresAt == now + ttl
                && memberships[pair].value.exitPendingSince == None
    {
      if c.inside && !wasInside {
        memberships := memberships[pair := Expiring(Timers(None, None), now + ttl)];
        Emit(pair, Entry, now);
      } else if c.inside && wasInside {
        memberships := memberships[pair := Expiring(Timers(None, None), now + ttl)];
      } else if !c.inside && wasInside {
        var (ready, timers) := ExitReady(c, policy, now, memberships[pair].value);
        if !ready {
          memberships := memberships[pair := Expiring(timers, now + ttl)];
          return;
        }
        if timers.exitPendingSince.None? {
          timers := timers.(exitPendingSince := Some(now));
          memberships := memberships[pair := Expiring(timers, now + ttl)];
        }
        if now - timers.exitPendingSince.value < policy.exitDelay {
          return;
        }
        memberships := memberships - {pair};
        Emit(pair, Exit, now);
      }
    }

    /** All fences of one trackable. */
    method EvaluateTrackable(t: string, scene: Scene)
      modifies this
      ensures old(events) <= events
      ensures forall p: Pair :: Evaluated(old(memberships), memberships, events[|old(events)|..], scene, t, p)
    {
      ghost var m0, e0 := memberships, events;
      var kept, active := ActiveFences(memberships, t, scene.now);
      var m1, tested := GatherCandidates(kept, active, t, scene);
      memberships := m1;
      forall f ensures ReadyToTest(m0, m1, tested, active, scene, (t, f)) {
        GatheringIsSound(m0, kept, m1, tested, active, t, scene, f);
      }
      TestFences(t, scene, tested, active, m0);
    }

    /** The loop over the fences to test. */
    method TestFences(t: string, scene: Scene, tested: map<string, Containment>, active: set<string>,
                      ghost m0: Memberships)
      requires forall f :: ReadyToTest(m0, memberships, tested, active, scene, (t, f))
      modifies this
      ensures old(events) <= events
      ensures forall p: Pair :: if p.0 == t then Stepped(m0, memberships, events[|old(events)|..], scene, p)
                                else Waiting(old(memberships), memberships, events[|old(events)|..], p)
    {
      ghost var m1, e0 := memberships, events;
      assert events[|e0|..] == [];
      var todo := tested.Keys;
      forall p: Pair ensures Underway(m0, m1, memberships, events[|e0|..], scene, t, todo, p) {
        assert p.0 == t ==> ReadyToTest(m0, memberships, tested, active, scene, (t, p.1));
      }
      while todo != {}
        invariant todo <= tested.Keys && e0 <= events
        invariant forall p: Pair :: Underway(m0, m1, memberships, events[|e0|..], scene, t, todo, p)
        decreases todo
      {
        var f :| f in todo;
        var pair := (t, f);
        ghost var m2, before := memberships, events[|e0|..];
        assert Underway(m0, m1, m2, before, scene, t, todo, pair);
        assert ReadyToTest(m0, m1, tested, active, scene, pair);
        ObserveAlive(Stored(m0, pair), tested[f], scene.policy(pair), scene.now, scene.ttl);
        ObservePair(pair, tested[f], scene.policy(pair), scene.now, scene.ttl, f in active);
        ghost var o := PairStep(Stored(m0, pair), StepOf(scene, pair)).1;
        assert events[|e0|..] == before + if o == Silent then [] else [FenceEvent(pair, o, scene.now)];
        forall p: Pair ensures Underway(m0, m1, memberships, events[|e0|..], scene, t, todo - {f}, p) {
          assert Underway(m0, m1, m2, before, scene, t, todo, p);
          UnderwayNext(m0, m1, m2, memberships, before, scene, t, todo, f, p);
        }
        todo := todo - {f};
      }
      forall p: Pair ensures if p.0 == t then Stepped(m0, memberships, events[|e0|..], scene, p)
                             else Waiting(m1, memberships, events[|e0|..], p) {
        assert Underway(m0, m1, memberships, events[|e0|..], scene, t, todo, p);
      }
    }

    /** The trackables of a location one after the other: for each pair, one step per occurrence. */
    method PublishFenceEvents(trackables: seq<string>, scene: Scene)
      modifies this
      ensures old(events) <= events
      ensures forall p: Pair ::
                Repeated(old(memberships), memberships, events[|old(events)|..], scene, p, Count(trackables, p.0))
    {
      ghost var m0, e0 := memberships, events;
      for i := 0 to |trackables|
        invariant e0 <= events
        invariant forall p: Pair :: Repeated(m0, memberships, events[|e0|..], scene, p, Count(trackables[..i], p.0))
      {
        var t := trackables[i];
        ghost var m1, e1 := memberships, events;
        EvaluateTrackable(t, scene);
        assert events[|e0|..] == e1[|e0|..] + events[|e1|..];
        assert trackables[..i + 1] == trackables[..i] + [t];
        AllRepeated(m0, m1, memberships, e1[|e0|..], events[|e1|..], scene, trackables[..i], t);
      }
      assert trackables[..|trackables|] == trackables;
    }

    /** The background sweep of the memberships. */
    method Sweep(now: Time)
      modifies this`memberships
      ensures memberships == LiveMap(old(memberships), now)
    {
      memberships := SweepMap(memberships, now);
    }

    /** Deleting a provider's state forgets all memberships of its trackables. */
    method ForgetTrackable(t: string, now: Time)
      modifies this`memberships
      ensures forall p: Pair :: Stored(memberships, p) ==
                if p.0 == t then PairStep(Stored(old(memberships), p), Forget(now)).0 else Stored(old(memberships), p)
    {
      var kept, active := ActiveFences(memberships, t, now);
      memberships := kept;
      var todo := active;
      while todo != {}
        invariant todo <= active
        invariant forall p: Pair :: Stored(memberships, p) ==
                    if p.0 == t && p.1 !in todo then None else Stored(kept, p)
        decreases todo
      {
        var f :| f in todo;
        memberships := memberships - {(t, f)};
        todo := todo - {f};
      }
    }
  }
}
