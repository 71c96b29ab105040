/**
 Order and latest value of one key over whole runs: exactly when they are kept, with any
 number of emitters, and what one emitter per key adds.
 */
module EventOrder {
  import opened Wrappers
  import opened Sequences
  import opened EventBus
  import opened KeyMoves

  // ---------------------------------------------------------------------------
  // A key's view of the bus
  // ---------------------------------------------------------------------------

  function KeyTest(k: string): Event -> bool {
    (e: Event) => e.key == Some(k)
  }

  function PendingFor(s: Sub, k: string): Option<Event> {
    if k in s.pending then Some(s.pending[k]) else None
  }

  function FlightFor(f: Flight, k: string): KeyFlight {
    match f
    case Idle => NoFlight
    case Peeked(key, e) => if key == k then PeekedFor(e) else NoFlight
    case Gone(key, e) => if key == k then GoneFor(e) else NoFlight
  }

  function ViewOf(b: Bus, k: string): View {
    View(Filter(b.sent, KeyTest(k)), Filter(b.accepted, KeyTest(k)), PendingFor(b.sub, k), FlightFor(b.flight, k))
  }

  /** Emission i is about to do its piece for k. */
  predicate Acts(b: Bus, i: nat, phase: Phase, k: string) {
    i < |b.emissions| && b.emissions[i].phase == phase && b.emissions[i].key == k
  }

  function MoveOf(b: Bus, s: Step, k: string): Move {
    match s
    case BeginStep(e) => if e.key == Some(k) && k in b.sub.pending then Hold(e) else Nothing
    case TryStep(i) => if Acts(b, i, Trying, k) && HasRoom(b.sub) then Direct(b.emissions[i].event) else Nothing
    case EnqueueStep(i) =>
      if Acts(b, i, Queueing, k) && (k in b.sub.pending || |b.sub.order| < PENDING_LIMIT)
      then Hold(b.emissions[i].event) else Nothing
    case ClearStep(i) => if Acts(b, i, Clearing, k) then Clear else Nothing
    case PeekStep =>
      if b.flight.Idle? && b.sub.order != [] && b.sub.order[0] == k && k in b.sub.pending then Peek else Nothing
    case SendStep =>
      if b.flight.Peeked? && b.flight.key == k then (if HasRoom(b.sub) then Send else Abort) else Nothing
    case RemoveStep => if b.flight.Gone? && b.flight.key == k then Remove else Nothing
    case ReceiveStep => Nothing
  }

  ghost predicate Seen(b: Bus, s: Step, k: string) {
    var m := MoveOf(b, s, k);
    Enabled(ViewOf(b, k), m) && ViewOf(Next(b, s), k) == Moved(ViewOf(b, k), m)
  }

  lemma BeginSeen(b: Bus, e: Event, k: string)
    ensures Seen(b, BeginStep(e), k)
  {
    FilterSnoc(b.sent, e, KeyTest(k));
    FilterSnoc(b.accepted, e, KeyTest(k));
  }

  lemma TrySeenByOthers(b: Bus, i: nat, k: string)
    requires i < |b.emissions| && b.emissions[i].key != k && b.emissions[i].event.key == Some(b.emissions[i].key)
    ensures ViewOf(TryNext(b, i), k) == ViewOf(b, k)
  {
    FilterSnoc(b.sent, b.emissions[i].event, KeyTest(k));
    FilterSnoc(b.accepted, b.emissions[i].event, KeyTest(k));
  }

  lemma TrySeenByKey(b: Bus, i: nat, k: string)
    requires Acts(b, i, Trying, k) && b.emissions[i].event.key == Some(k)
    ensures ViewOf(TryNext(b, i), k) ==
            if HasRoom(b.sub) then Moved(ViewOf(b, k), Direct(b.emissions[i].event)) else ViewOf(b, k)
  {
    FilterSnoc(b.sent, b.emissions[i].event, KeyTest(k));
    FilterSnoc(b.accepted, b.emissions[i].event, KeyTest(k));
  }

  lemma TrySeen(b: Bus, i: nat, k: string)
    requires i < |b.emissions| && b.emissions[i].event.key == Some(b.emissions[i].key)
    ensures Seen(b, TryStep(i), k)
  {
    if b.emissions[i].phase == Trying {
      if b.emissions[i].key == k {
        TrySeenByKey(b, i, k);
      } else {
        TrySeenByOthers(b, i, k);
      }
    }
  }

  lemma EnqueueSeenByOthers(b: Bus, i: nat, k: string)
    requires i < |b.emissions| && b.emissions[i].key != k && b.emissions[i].event.key == Some(b.emissions[i].key)
    ensures ViewOf(EnqueueNext(b, i), k) == ViewOf(b, k)
  {
    FilterSnoc(b.accepted, b.emissions[i].event, KeyTest(k));
  }

  lemma EnqueueSeenByKey(b: Bus, i: nat, k: string)
    requires Acts(b, i, Queueing, k) && b.emissions[i].event.key == Some(k)
    ensures ViewOf(EnqueueNext(b, i), k) ==
            if k in b.sub.pending || |b.sub.order| < PENDING_LIMIT then Moved(ViewOf(b, k), Hold(b.emissions[i].event))
            else ViewOf(b, k)
  {
    FilterSnoc(b.accepted, b.emissions[i].event, KeyTest(k));
  }

  lemma EnqueueSeen(b: Bus, i: nat, k: string)
    requires i < |b.emissions| && b.emissions[i].event.key == Some(b.emissions[i].key)
    ensures Seen(b, EnqueueStep(i), k)
  {
    if b.emissions[i].phase == Queueing {
      if b.emissions[i].key == k {
        EnqueueSeenByKey(b, i, k);
      } else {
        EnqueueSeenByOthers(b, i, k);
      }
    }
  }

  lemma SendSeen(b: Bus, k: string)
    requires b.flight.Peeked? && b.flight.event.key == Some(b.flight.key)
    ensures Seen(b, SendStep, k)
  {
    FilterSnoc(b.sent, b.flight.event, KeyTest(k));
  }

  /** Whatever happens to the bus, a key sees one of its moves. */
  lemma StepSeen(b: Bus, s: Step, k: string)
    requires Keyed(b)
    ensures Seen(b, s, k)
  {
    match s {
      case BeginStep(e) => BeginSeen(b, e, k);
      case TryStep(i) =>
        if i < |b.emissions| {
          TrySeen(b, i, k);
        }
      case EnqueueStep(i) =>
        if i < |b.emissions| {
          EnqueueSeen(b, i, k);
        }
      case SendStep =>
        if b.flight.Peeked? {
          SendSeen(b, k);
        }
      case _ =>
    }
  }

  // ---------------------------------------------------------------------------
  // Order and latest value over runs
  // ---------------------------------------------------------------------------

  ghost predicate OrderedAt(b: Bus, k: string) {
    InOrder(ViewOf(b, k))
  }

  ghost predicate OrderedAfter(capacity: nat, run: seq<Step>, i: nat, k: string)
    requires i <= |run|
  {
    OrderedAt(After(capacity, run, i), k)
  }

  ghost predicate LatestKeptAfter(capacity: nat, run: seq<Step>, i: nat, k: string)
    requires i <= |run|
  {
    EndsInLatest(ViewOf(After(capacity, run, i), k))
  }

  /** Step i of the run sends an event of k directly while an earlier one is still on its way. */
  ghost predicate OvertakesAt(capacity: nat, run: seq<Step>, i: nat, k: string)
    requires i < |run|
  {
    var b := After(capacity, run, i);
    Overtakes(ViewOf(b, k), MoveOf(b, run[i], k))
  }

  /** ... or takes away or strands the value at the end of the line of k. */
  ghost predicate LosesAt(capacity: nat, run: seq<Step>, i: nat, k: string)
    requires i < |run|
  {
    var b := After(capacity, run, i);
    Loses(ViewOf(b, k), MoveOf(b, run[i], k))
  }

  ghost predicate CleanAt(capacity: nat, run: seq<Step>, i: nat, k: string)
    requires i < |run|
  {
    var b := After(capacity, run, i);
    Clean(ViewOf(b, k), MoveOf(b, run[i], k))
  }

  ghost function OrderedFlags(capacity: nat, run: seq<Step>, k: string): (flags: seq<bool>)
    ensures |flags| == |run| + 1
  {
    seq(|run| + 1, i requires 0 <= i <= |run| => OrderedAfter(capacity, run, i, k))
  }

  lemma OrderedStep(b: Bus, s: Step, k: string)
    requires Keyed(b) && OrderedAt(b, k) && !Overtakes(ViewOf(b, k), MoveOf(b, s, k))
    ensures OrderedAt(Next(b, s), k)
  {
    StepSeen(b, s, k);
    MoveKeepsOrder(ViewOf(b, k), MoveOf(b, s, k));
  }

  lemma OrderPasses(capacity: nat, run: seq<Step>, i: nat, k: string)
    requires i < |run| && !OvertakesAt(capacity, run, i, k)
    ensures Passes(OrderedFlags(capacity, run, k), i)
  {
    if OrderedFlags(capacity, run, k)[i] {
      RunSound(capacity, run, i);
      OrderedStep(After(capacity, run, i), run[i], k);
    }
  }

  /** However emitters, flusher and consumer interleave, order is kept while nothing overtakes. */
  lemma NoOvertakingKeepsOrder(capacity: nat, run: seq<Step>, n: nat, k: string)
    requires n <= |run| && forall i :: 0 <= i < n ==> !OvertakesAt(capacity, run, i, k)
    ensures OrderedAfter(capacity, run, n, k)
  {
    forall i | 0 <= i < n ensures Passes(OrderedFlags(capacity, run, k), i) {
      OrderPasses(capacity, run, i, k);
    }
    Carry(OrderedFlags(capacity, run, k), n);
  }

  /** No event of k is given to the subscriber twice. */
  ghost predicate DistinctEvents(run: seq<Step>, n: nat, k: string)
    requires n <= |run|
  {
    forall e: Event :: e.key == Some(k) ==> multiset(Begun(run, n))[e] <= 1
  }

  lemma {:induction false} BegunGrows(run: seq<Step>, m: nat, n: nat, e: Event)
    requires m <= n <= |run|
    ensures multiset(Begun(run, m))[e] <= multiset(Begun(run, n))[e]
    decreases n
  {
    if m < n {
      BegunGrows(run, m, n - 1, e);
    }
  }

  lemma FilterHolds(s: seq<Event>, k: string, e: Event)
    requires e in Filter(s, KeyTest(k))
    ensures multiset(s)[e] >= 1
  {
    FilterMember(s, KeyTest(k), e);
  }

  lemma Unaccepted(b: Bus, e: Event, k: string)
    requires Booked(b, e) == 0 || (Booked(b, e) <= 1 && Undecided(b.emissions, e) >= 1)
    ensures e !in ViewOf(b, k).accepted
  {
    if e in ViewOf(b, k).accepted {
      FilterHolds(b.accepted, k, e);
    }
  }

  lemma BegunSnoc(run: seq<Step>, i: nat, e: Event)
    requires i < |run| && run[i] == BeginStep(e)
    ensures multiset(Begun(run, i + 1))[e] == multiset(Begun(run, i))[e] + 1
  {
  }

  lemma BegunOnce(run: seq<Step>, i: nat, n: nat, e: Event)
    requires i < n <= |run| && multiset(Begun(run, n))[e] <= 1
    ensures multiset(Begun(run, i))[e] <= 1
    ensures run[i].BeginStep? && run[i].event == e ==> multiset(Begun(run, i))[e] == 0
  {
    BegunGrows(run, i, n, e);
    if run[i].BeginStep? && run[i].event == e {
      BegunGrows(run, i + 1, n, e);
      BegunSnoc(run, i, e);
    }
  }

  /** With distinct events, an event is booked at most once, and not at all before it begins. */
  lemma BookedOnce(capacity: nat, run: seq<Step>, i: nat, n: nat, k: string, e: Event)
    requires i < n <= |run| && DistinctEvents(run, n, k) && e.key == Some(k)
    ensures Booked(After(capacity, run, i), e) <= 1
    ensures run[i].BeginStep? && run[i].event == e ==> Booked(After(capacity, run, i), e) == 0
  {
    DropsCounted(capacity, run, i, e);
    BegunOnce(run, i, n, e);
  }

  /** With distinct events every accepted event is new. */
  lemma AcceptedIsFresh(capacity: nat, run: seq<Step>, i: nat, n: nat, k: string)
    requires i < n <= |run| && DistinctEvents(run, n, k)
    ensures var b := After(capacity, run, i); Fresh(ViewOf(b, k), MoveOf(b, run[i], k))
  {
    var b, s := After(capacity, run, i), run[i];
    var m := MoveOf(b, s, k);
    if m.Hold? || m.Direct? {
      var e := if m.Hold? then m.held else m.direct;
      RunSound(capacity, run, i);
      BookedOnce(capacity, run, i, n, k, e);
      if !s.BeginStep? {
        UndecidedAt(b.emissions, s.i, e);
      }
      Unaccepted(b, e, k);
    }
  }

  ghost function OvertakesFlags(capacity: nat, run: seq<Step>, k: string): (flags: seq<bool>)
    ensures |flags| == |run|
  {
    seq(|run|, i requires 0 <= i < |run| => OvertakesAt(capacity, run, i, k))
  }

  lemma OvertakenAt(capacity: nat, run: seq<Step>, i: nat, n: nat, k: string)
    requires i < n <= |run| && DistinctEvents(run, n, k)
    requires OvertakesAt(capacity, run, i, k) && OrderedAfter(capacity, run, i, k)
    ensures !OrderedAfter(capacity, run, i + 1, k)
  {
    var b := After(capacity, run, i);
    RunSound(capacity, run, i);
    AcceptedIsFresh(capacity, run, i, n, k);
    StepSeen(b, run[i], k);
    OvertakingBreaks(ViewOf(b, k), MoveOf(b, run[i], k).direct);
  }

  lemma OvertakingDecides(capacity: nat, run: seq<Step>, i: nat, n: nat, k: string)
    requires i < n <= |run| && DistinctEvents(run, n, k)
    ensures Decides(OrderedFlags(capacity, run, k), OvertakesFlags(capacity, run, k), i)
  {
    if OrderedFlags(capacity, run, k)[i] {
      if OvertakesFlags(capacity, run, k)[i] {
        OvertakenAt(capacity, run, i, n, k);
      } else {
        OrderPasses(capacity, run, i, k);
      }
    }
  }

  lemma StartOrdered(capacity: nat, run: seq<Step>, k: string)
    ensures OrderedFlags(capacity, run, k)[0] && LatestFlags(capacity, run, k)[0]
  {
  }

  /**
   With any number of emitters, what reached the channel for a key followed by what is still
   on its way is a subsequence of the accepted events throughout a run exactly when no event
   of the key is sent directly while an earlier one is on its way.
   */
  lemma OrderedIff(capacity: nat, run: seq<Step>, n: nat, k: string)
    requires n <= |run| && DistinctEvents(run, n, k)
    ensures (forall i :: 0 <= i <= n ==> OrderedAfter(capacity, run, i, k)) <==>
            (forall i :: 0 <= i < n ==> !OvertakesAt(capacity, run, i, k))
  {
    var flags, bad := OrderedFlags(capacity, run, k), OvertakesFlags(capacity, run, k);
    StartOrdered(capacity, run, k);
    forall i | 0 <= i < n ensures Decides(flags, bad, i) {
      OvertakingDecides(capacity, run, i, n, k);
    }
    ThroughoutIff(flags, bad, n);
    assert forall i :: 0 <= i <= n ==> flags[i] == OrderedAfter(capacity, run, i, k);
    assert forall i :: 0 <= i < n ==> bad[i] == OvertakesAt(capacity, run, i, k);
  }

  ghost function LatestFlags(capacity: nat, run: seq<Step>, k: string): (flags: seq<bool>)
    ensures |flags| == |run| + 1
  {
    seq(|run| + 1, i requires 0 <= i <= |run| => LatestKeptAfter(capacity, run, i, k))
  }

  lemma LatestStep(capacity: nat, run: seq<Step>, i: nat, k: string)
    requires i < |run| && CleanAt(capacity, run, i, k) && LatestKeptAfter(capacity, run, i, k)
    ensures LatestKeptAfter(capacity, run, i + 1, k) <==> !LosesAt(capacity, run, i, k)
  {
    var b := After(capacity, run, i);
    RunSound(capacity, run, i);
    StepSeen(b, run[i], k);
    MoveLatestIff(ViewOf(b, k), MoveOf(b, run[i], k));
  }

  ghost function LosesFlags(capacity: nat, run: seq<Step>, k: string): (flags: seq<bool>)
    ensures |flags| == |run|
  {
    seq(|run|, i requires 0 <= i < |run| => LosesAt(capacity, run, i, k))
  }

  lemma LossDecides(capacity: nat, run: seq<Step>, i: nat, k: string)
    requires i < |run| && CleanAt(capacity, run, i, k)
    ensures Decides(LatestFlags(capacity, run, k), LosesFlags(capacity, run, k), i)
  {
    if LatestFlags(capacity, run, k)[i] {
      LatestStep(capacity, run, i, k);
    }
  }

  ghost predicate CleanBefore(capacity: nat, run: seq<Step>, n: nat, k: string)
    requires n <= |run|
  {
    forall i :: 0 <= i < n ==> CleanAt(capacity, run, i, k)
  }

  lemma CleanKeepsLatestIff(capacity: nat, run: seq<Step>, n: nat, k: string)
    requires n <= |run| && CleanBefore(capacity, run, n, k)
    ensures (forall i :: 0 <= i <= n ==> LatestKeptAfter(capacity, run, i, k)) <==>
            (forall i :: 0 <= i < n ==> !LosesAt(capacity, run, i, k))
  {
    var flags, bad := LatestFlags(capacity, run, k), LosesFlags(capacity, run, k);
    StartOrdered(capacity, run, k);
    forall i | 0 <= i < n ensures Decides(flags, bad, i) {
      assert CleanAt(capacity, run, i, k);
      LossDecides(capacity, run, i, k);
    }
    ThroughoutIff(flags, bad, n);
    assert forall i :: 0 <= i <= n ==> flags[i] == LatestKeptAfter(capacity, run, i, k);
    assert forall i :: 0 <= i < n ==> bad[i] == LosesAt(capacity, run, i, k);
  }

  ghost predicate TidyAfter(capacity: nat, run: seq<Step>, i: nat, k: string)
    requires i <= |run|
  {
    Tidy(ViewOf(After(capacity, run, i), k))
  }

  ghost function TidyFlags(capacity: nat, run: seq<Step>, k: string): (flags: seq<bool>)
    ensures |flags| == |run| + 1
  {
    seq(|run| + 1, i requires 0 <= i <= |run| => TidyAfter(capacity, run, i, k))
  }

  lemma TidyStep(b: Bus, s: Step, k: string)
    requires Keyed(b) && Tidy(ViewOf(b, k)) && Fresh(ViewOf(b, k), MoveOf(b, s, k))
    ensures Tidy(ViewOf(Next(b, s), k)) && Clean(ViewOf(b, k), MoveOf(b, s, k))
  {
    StepSeen(b, s, k);
    TidyMove(ViewOf(b, k), MoveOf(b, s, k));
    TidyIsClean(ViewOf(b, k), MoveOf(b, s, k));
  }

  lemma TidyNext(capacity: nat, run: seq<Step>, i: nat, n: nat, k: string)
    requires i < n <= |run| && DistinctEvents(run, n, k) && TidyAfter(capacity, run, i, k)
    ensures TidyAfter(capacity, run, i + 1, k) && CleanAt(capacity, run, i, k)
  {
    RunSound(capacity, run, i);
    AcceptedIsFresh(capacity, run, i, n, k);
    TidyStep(After(capacity, run, i), run[i], k);
  }

  lemma TidyFlagAt(capacity: nat, run: seq<Step>, i: nat, k: string)
    requires i <= |run|
    ensures TidyFlags(capacity, run, k)[i] == TidyAfter(capacity, run, i, k)
  {
  }

  lemma TidyPasses(capacity: nat, run: seq<Step>, i: nat, n: nat, k: string)
    requires i < n <= |run| && DistinctEvents(run, n, k)
    ensures Passes(TidyFlags(capacity, run, k), i)
  {
    TidyFlagAt(capacity, run, i, k);
    TidyFlagAt(capacity, run, i + 1, k);
    var here, there := TidyAfter(capacity, run, i, k), TidyAfter(capacity, run, i + 1, k);
    if here {
      TidyNext(capacity, run, i, n, k);
    }
    FlagsPass(TidyFlags(capacity, run, k), i, here, there);
  }

  lemma RunTidy(capacity: nat, run: seq<Step>, i: nat, n: nat, k: string)
    requires i <= n <= |run| && DistinctEvents(run, n, k)
    ensures TidyAfter(capacity, run, i, k)
  {
    forall j | 0 <= j < i ensures Passes(TidyFlags(capacity, run, k), j) {
      TidyPasses(capacity, run, j, n, k);
    }
    Carry(TidyFlags(capacity, run, k), i);
  }

  lemma DistinctIsClean(capacity: nat, run: seq<Step>, i: nat, n: nat, k: string)
    requires i < n <= |run| && DistinctEvents(run, n, k)
    ensures CleanAt(capacity, run, i, k)
  {
    RunTidy(capacity, run, i, n, k);
    TidyNext(capacity, run, i, n, k);
  }

  /**
   With any number of emitters, a key's line ends in its latest accepted event throughout a
   run exactly when no direct send overtakes, no clear or remove takes away a pending value
   other than the one in flight, and no send is aborted after its value was cleared.
   */
  lemma LatestKeptIff(capacity: nat, run: seq<Step>, n: nat, k: string)
    requires n <= |run| && DistinctEvents(run, n, k)
    ensures (forall i :: 0 <= i <= n ==> LatestKeptAfter(capacity, run, i, k)) <==>
            (forall i :: 0 <= i < n ==> !LosesAt(capacity, run, i, k))
  {
    forall i | 0 <= i < n ensures CleanAt(capacity, run, i, k) {
      DistinctIsClean(capacity, run, i, n, k);
    }
    CleanKeepsLatestIff(capacity, run, n, k);
  }

  // ---------------------------------------------------------------------------
  // One emitter per key
  // ---------------------------------------------------------------------------

  /** A delivery for k is under way. */
  ghost predicate Emitting(b: Bus, k: string) {
    exists i :: 0 <= i < |b.emissions| && b.emissions[i].key == k
  }

  /** Nothing is delivered for k before the previous delivery for k is over. */
  ghost predicate AloneAt(capacity: nat, run: seq<Step>, i: nat, k: string)
    requires i < |run|
  {
    run[i].BeginStep? && run[i].event.key == Some(k) ==> !Emitting(After(capacity, run, i), k)
  }

  ghost predicate OneEmitter(capacity: nat, run: seq<Step>, n: nat, k: string)
    requires n <= |run|
  {
    forall i :: 0 <= i < n ==> AloneAt(capacity, run, i, k)
  }

  ghost predicate AtMostOne(es: seq<Emission>, k: string) {
    forall i, j :: 0 <= i < |es| && 0 <= j < |es| && es[i].key == k && es[j].key == k ==> i == j
  }

  /** With one emitter, a key in flight is pending and a key being delivered is not. */
  ghost predicate KeySound(b: Bus, k: string) {
    && (!b.flight.Idle? && b.flight.key == k ==> k in b.sub.pending)
    && (Emitting(b, k) ==> k !in b.sub.pending)
    && AtMostOne(b.emissions, k)
  }

  lemma WithoutMembers(es: seq<Emission>, i: nat, k: string)
    requires i < |es| && AtMostOne(es, k)
    ensures AtMostOne(Without(es, i), k)
    ensures es[i].key == k ==> forall j :: 0 <= j < |es| - 1 ==> Without(es, i)[j].key != k
    ensures forall j :: 0 <= j < |es| - 1 ==> Without(es, i)[j] in es
  {
    var rest := Without(es, i);
    assert forall j :: 0 <= j < |rest| ==> rest[j] == if j < i then es[j] else es[j + 1];
  }

  lemma BeginKeySound(b: Bus, e: Event, k: string)
    requires KeySound(b, k) && (e.key == Some(k) ==> !Emitting(b, k))
    ensures KeySound(BeginNext(b, e), k)
  {
  }

  lemma TryKeySound(b: Bus, i: nat, k: string)
    requires KeySound(b, k)
    ensures KeySound(TryNext(b, i), k)
  {
    var b' := TryNext(b, i);
    assert |b'.emissions| == |b.emissions|;
    assert forall j :: 0 <= j < |b.emissions| ==> b'.emissions[j].key == b.emissions[j].key;
  }

  lemma EnqueueKeySound(b: Bus, i: nat, k: string)
    requires KeySound(b, k)
    ensures KeySound(EnqueueNext(b, i), k)
  {
    if i < |b.emissions| {
      WithoutMembers(b.emissions, i, k);
    }
  }

  lemma ClearKeySound(b: Bus, i: nat, k: string)
    requires KeySound(b, k)
    ensures KeySound(ClearNext(b, i), k)
  {
    if i < |b.emissions| {
      WithoutMembers(b.emissions, i, k);
    }
  }

  lemma NextKeySound(b: Bus, s: Step, k: string)
    requires KeySound(b, k) && (s.BeginStep? && s.event.key == Some(k) ==> !Emitting(b, k))
    ensures KeySound(Next(b, s), k)
  {
    match s {
      case BeginStep(e) => BeginKeySound(b, e, k);
      case TryStep(i) => TryKeySound(b, i, k);
      case EnqueueStep(i) => EnqueueKeySound(b, i, k);
      case ClearStep(i) => ClearKeySound(b, i, k);
      case _ =>
    }
  }

  lemma {:induction false} RunKeySound(capacity: nat, run: seq<Step>, n: nat, k: string)
    requires n <= |run| && OneEmitter(capacity, run, n, k)
    ensures KeySound(After(capacity, run, n), k)
    decreases n
  {
    if n > 0 {
      RunKeySound(capacity, run, n - 1, k);
      assert AloneAt(capacity, run, n - 1, k);
      NextKeySound(After(capacity, run, n - 1), run[n - 1], k);
    }
  }

  lemma KeySoundIsStrict(b: Bus, s: Step, k: string)
    requires KeySound(b, k)
    ensures Strict(ViewOf(b, k), MoveOf(b, s, k))
  {
    if MoveOf(b, s, k).Direct? || MoveOf(b, s, k).Clear? {
      assert Emitting(b, k);
    }
  }

  ghost function SettledFlags(capacity: nat, run: seq<Step>, k: string): (flags: seq<bool>)
    ensures |flags| == |run| + 1
  {
    seq(|run| + 1, i requires 0 <= i <= |run| => Settled(ViewOf(After(capacity, run, i), k)))
  }

  lemma SettledPasses(capacity: nat, run: seq<Step>, i: nat, k: string)
    requires i < |run| && OneEmitter(capacity, run, i, k)
    ensures Passes(SettledFlags(capacity, run, k), i)
  {
    if SettledFlags(capacity, run, k)[i] {
      var b := After(capacity, run, i);
      RunSound(capacity, run, i);
      RunKeySound(capacity, run, i, k);
      StepSeen(b, run[i], k);
      KeySoundIsStrict(b, run[i], k);
      StrictMove(ViewOf(b, k), MoveOf(b, run[i], k));
    }
  }

  lemma RunSettled(capacity: nat, run: seq<Step>, n: nat, k: string)
    requires n <= |run| && OneEmitter(capacity, run, n, k)
    ensures Settled(ViewOf(After(capacity, run, n), k))
  {
    forall i | 0 <= i < n ensures Passes(SettledFlags(capacity, run, k), i) {
      SettledPasses(capacity, run, i, k);
    }
    Carry(SettledFlags(capacity, run, k), n);
  }

  /** What one emitter means for one step. */
  lemma OneEmitterStep(capacity: nat, run: seq<Step>, i: nat, k: string)
    requires i < |run| && OneEmitter(capacity, run, i, k)
    ensures !OvertakesAt(capacity, run, i, k)
    ensures OrderedAfter(capacity, run, i, k) ==> CleanAt(capacity, run, i, k)
    ensures LosesAt(capacity, run, i, k) <==> ClobbersAt(capacity, run, i, k)
  {
    var b := After(capacity, run, i);
    RunSound(capacity, run, i);
    RunKeySound(capacity, run, i, k);
    RunSettled(capacity, run, i, k);
    StepSeen(b, run[i], k);
    KeySoundIsStrict(b, run[i], k);
    StrictMove(ViewOf(b, k), MoveOf(b, run[i], k));
  }

  /** Step i of the run removes, for key k, a newer value than it sent. */
  ghost predicate ClobbersAt(capacity: nat, run: seq<Step>, i: nat, k: string)
    requires i < |run|
  {
    var b := After(capacity, run, i);
    var v := ViewOf(b, k);
    run[i].RemoveStep? && v.flight.GoneFor? && v.pending.Some? && v.pending.value != v.flight.event
  }

  /** One emitter per key keeps the order of the key, equal events or not. */
  lemma RunOrdered(capacity: nat, run: seq<Step>, n: nat, k: string)
    requires n <= |run| && OneEmitter(capacity, run, n, k)
    ensures OrderedAfter(capacity, run, n, k)
  {
    forall i | 0 <= i < n ensures !OvertakesAt(capacity, run, i, k) {
      OneEmitterStep(capacity, run, i, k);
    }
    NoOvertakingKeepsOrder(capacity, run, n, k);
  }

  lemma OneEmitterIsClean(capacity: nat, run: seq<Step>, n: nat, k: string)
    requires n <= |run| && OneEmitter(capacity, run, n, k)
    ensures CleanBefore(capacity, run, n, k)
  {
    forall i | 0 <= i < n ensures CleanAt(capacity, run, i, k) {
      RunOrdered(capacity, run, i, k);
      OneEmitterStep(capacity, run, i, k);
    }
  }

  /**
   With one emitter the latest value is kept throughout exactly when no remove finds a
   newer value than was peeked.
   */
  lemma OneEmitterKeepsLatestIff(capacity: nat, run: seq<Step>, n: nat, k: string)
    requires n <= |run| && OneEmitter(capacity, run, n, k)
    ensures (forall i :: 0 <= i <= n ==> LatestKeptAfter(capacity, run, i, k)) <==>
            (forall i :: 0 <= i < n ==> !ClobbersAt(capacity, run, i, k))
  {
    OneEmitterIsClean(capacity, run, n, k);
    CleanKeepsLatestIff(capacity, run, n, k);
    forall i | 0 <= i < n ensures LosesAt(capacity, run, i, k) <==> ClobbersAt(capacity, run, i, k) {
      OneEmitterStep(capacity, run, i, k);
    }
  }

  /** Step i does not begin a delivery for k while the flusher holds an event of k. */
  ghost predicate QuietAt(capacity: nat, run: seq<Step>, i: nat, k: string)
    requires i < |run|
  {
    run[i].BeginStep? && run[i].event.key == Some(k) ==> FlightFor(After(capacity, run, i).flight, k).NoFlight?
  }

  /** Only the first piece of a delivery can meet a flight of its own key. */
  lemma HoldMeetsNoFlight(b: Bus, s: Step, k: string)
    requires KeySound(b, k) && MoveOf(b, s, k).Hold? && !s.BeginStep?
    ensures FlightFor(b.flight, k).NoFlight?
  {
    assert Emitting(b, k);
  }

  ghost function FlightFlags(capacity: nat, run: seq<Step>, k: string): (flags: seq<bool>)
    ensures |flags| == |run| + 1
  {
    seq(|run| + 1, i requires 0 <= i <= |run| => FlightIsPending(ViewOf(After(capacity, run, i), k)))
  }

  lemma FlightPasses(capacity: nat, run: seq<Step>, i: nat, k: string)
    requires i < |run| && OneEmitter(capacity, run, i, k) && QuietAt(capacity, run, i, k)
    ensures Passes(FlightFlags(capacity, run, k), i)
  {
    if FlightFlags(capacity, run, k)[i] {
      var b, s := After(capacity, run, i), run[i];
      RunSound(capacity, run, i);
      RunKeySound(capacity, run, i, k);
      StepSeen(b, s, k);
      KeySoundIsStrict(b, s, k);
      if MoveOf(b, s, k).Hold? && !s.BeginStep? {
        HoldMeetsNoFlight(b, s, k);
      }
      UndisturbedMove(ViewOf(b, k), MoveOf(b, s, k));
    }
  }

  lemma UndisturbedFlight(capacity: nat, run: seq<Step>, n: nat, k: string)
    requires n <= |run| && OneEmitter(capacity, run, n, k) && forall i :: 0 <= i < n ==> QuietAt(capacity, run, i, k)
    ensures FlightIsPending(ViewOf(After(capacity, run, n), k))
  {
    forall i | 0 <= i < n ensures Passes(FlightFlags(capacity, run, k), i) {
      FlightPasses(capacity, run, i, k);
    }
    Carry(FlightFlags(capacity, run, k), n);
  }

  /**
   If moreover no delivery for the key begins while the flusher holds an event of it, its
   latest value is kept throughout.
   */
  lemma AtomicFlushKeepsLatest(capacity: nat, run: seq<Step>, n: nat, k: string)
    requires n <= |run| && OneEmitter(capacity, run, n, k) && forall i :: 0 <= i < n ==> QuietAt(capacity, run, i, k)
    ensures LatestKeptAfter(capacity, run, n, k)
  {
    forall i | 0 <= i < n ensures !ClobbersAt(capacity, run, i, k) {
      UndisturbedFlight(capacity, run, i, k);
    }
    OneEmitterKeepsLatestIff(capacity, run, n, k);
  }
}
