/**
 One subscriber of the internal event bus: a bounded channel with a coalescing backlog.
 Deliveries and the flusher each work in separately locked pieces, which any number of
 emitters, the flusher and the consumer interleave freely.
 */
module EventBus {
  import opened Wrappers
  import opened Sequences

  const PENDING_LIMIT := 1024

  /** An event with its coalescing key, if it has one; `serial` tells events of one key apart. */
  datatype Event = Event(key: Option<string>, serial: nat)

  // ---------------------------------------------------------------------------
  // The locked sections
  // ---------------------------------------------------------------------------

  datatype Sub = Sub(capacity: nat, ch: seq<Event>, pending: map<string, Event>, order: seq<string>)

  /** The backlog lists exactly the pending keys, each once, and stays within its limit. */
  ghost predicate WellFormed(s: Sub) {
    && NoDuplicates(s.order)
    && (forall k :: k in s.order <==> k in s.pending)
    && |s.order| <= PENDING_LIMIT
    && |s.ch| <= s.capacity
  }

  function RemoveKey(order: seq<string>, k: string): seq<string> {
    if order == [] then [] else if order[0] == k then order[1..] else [order[0]] + RemoveKey(order[1..], k)
  }

  function Enqueue(s: Sub, k: string, e: Event): (Sub, bool) {
    if k in s.pending then (s.(pending := s.pending[k := e]), true)
    else if |s.order| >= PENDING_LIMIT then (s, false)
    else (s.(pending := s.pending[k := e], order := s.order + [k]), true)
  }

  function Drop(s: Sub, k: string): Sub {
    s.(pending := s.pending - {k}, order := RemoveKey(s.order, k))
  }

  predicate HasRoom(s: Sub) {
    |s.ch| < s.capacity
  }

  /** What a delivery does with its event. */
  datatype Fate = Sent | Held | Dropped

  function Deliver(s: Sub, e: Event): (Sub, Fate) {
    var key := e.key;
    if key.Some? && (key.value in s.pending || s.order != []) then
      var (s', ok) := Enqueue(s, key.value, e);
      (s', if ok then Held else Dropped)
    else if HasRoom(s) then
      var s' := s.(ch := s.ch + [e]);
      (if key.Some? && key.value in s.pending then Drop(s', key.value) else s', Sent)
    else if key.None? then (s, Dropped)
    else
      var (s', ok) := Enqueue(s, key.value, e);
      (s', if ok then Held else Dropped)
  }

  lemma NoDuplicatesTail(order: seq<string>)
    requires order != [] && NoDuplicates(order)
    ensures NoDuplicates(order[1..]) && order[0] !in order[1..]
  {
  }

  lemma NoDuplicatesCons(k: string, order: seq<string>)
    requires NoDuplicates(order) && k !in order
    ensures NoDuplicates([k] + order)
  {
  }

  lemma {:induction false} RemoveKeyMember(order: seq<string>, k: string, j: string)
    requires NoDuplicates(order)
    ensures j in RemoveKey(order, k) <==> j in order && j != k
  {
    if order != [] {
      NoDuplicatesTail(order);
      RemoveKeyMember(order[1..], k, j);
      assert j in order <==> j == order[0] || j in order[1..];
    }
  }

  lemma {:induction false} RemoveKeyMembers(order: seq<string>, k: string)
    requires NoDuplicates(order)
    ensures NoDuplicates(RemoveKey(order, k)) && |RemoveKey(order, k)| <= |order|
    ensures forall j :: j in RemoveKey(order, k) <==> j in order && j != k
  {
    forall j ensures j in RemoveKey(order, k) <==> j in order && j != k {
      RemoveKeyMember(order, k, j);
    }
    if order != [] {
      NoDuplicatesTail(order);
      RemoveKeyMembers(order[1..], k);
      if order[0] != k {
        NoDuplicatesCons(order[0], RemoveKey(order[1..], k));
      }
    }
  }

  lemma DropKeeps(s: Sub, k: string)
    requires WellFormed(s)
    ensures WellFormed(Drop(s, k))
  {
    RemoveKeyMembers(s.order, k);
  }

  // ---------------------------------------------------------------------------
  // Runs
  // ---------------------------------------------------------------------------

  /** What the flusher holds between its locked pieces. */
  datatype Flight = Idle | Peeked(key: string, event: Event) | Gone(key: string, event: Event)

  /**
   What is left of a delivery after its first piece: try the channel, join the backlog, or
   clear it after a direct send.
   */
  datatype Phase = Trying | Queueing | Clearing

  /** A delivery under way; only keyed events take more than one piece. */
  datatype Emission = Emission(key: string, event: Event, phase: Phase)

  /** The subscriber with the deliveries under way and what has gone through it. */
  datatype Bus = Bus(sub: Sub, flight: Flight, emissions: seq<Emission>,
                     sent: seq<Event>, accepted: seq<Event>, dropped: seq<Event>, received: seq<Event>)

  datatype Step =
    | BeginStep(event: Event) | TryStep(i: nat) | EnqueueStep(i: nat) | ClearStep(i: nat)
    | PeekStep | SendStep | RemoveStep
    | ReceiveStep

  function Start(capacity: nat): Bus {
    Bus(Sub(capacity, [], map[], []), Idle, [], [], [], [], [])
  }

  function Without(es: seq<Emission>, i: nat): seq<Emission>
    requires i < |es|
  {
    es[..i] + es[i + 1..]
  }

  function Sending(b: Bus, e: Event): Bus {
    b.(sub := b.sub.(ch := b.sub.ch + [e]), sent := b.sent + [e])
  }

  function BeginNext(b: Bus, e: Event): Bus {
    if e.key.None? then
      if HasRoom(b.sub) then Sending(b, e).(accepted := b.accepted + [e]) else b.(dropped := b.dropped + [e])
    else
      var k := e.key.value;
      if k in b.sub.pending then b.(sub := b.sub.(pending := b.sub.pending[k := e]), accepted := b.accepted + [e])
      else b.(emissions := b.emissions + [Emission(k, e, if b.sub.order != [] then Queueing else Trying)])
  }

  function TryNext(b: Bus, i: nat): Bus {
    if i >= |b.emissions| || b.emissions[i].phase != Trying then b
    else
      var em := b.emissions[i];
      if HasRoom(b.sub) then
        Sending(b, em.event).(accepted := b.accepted + [em.event],
                              emissions := b.emissions[i := em.(phase := Clearing)])
      else b.(emissions := b.emissions[i := em.(phase := Queueing)])
  }

  function EnqueueNext(b: Bus, i: nat): Bus {
    if i >= |b.emissions| || b.emissions[i].phase != Queueing then b
    else
      var em := b.emissions[i];
      var (sub, ok) := Enqueue(b.sub, em.key, em.event);
      var rest := b.(emissions := Without(b.emissions, i));
      if ok then rest.(sub := sub, accepted := b.accepted + [em.event]) else rest.(dropped := b.dropped + [em.event])
  }

  function ClearNext(b: Bus, i: nat): Bus {
    if i >= |b.emissions| || b.emissions[i].phase != Clearing then b
    else
      var em := b.emissions[i];
      b.(sub := if em.key in b.sub.pending then Drop(b.sub, em.key) else b.sub, emissions := Without(b.emissions, i))
  }

  function PeekNext(b: Bus): Bus {
    if b.flight.Idle? && b.sub.order != [] && b.sub.order[0] in b.sub.pending
    then b.(flight := Peeked(b.sub.order[0], b.sub.pending[b.sub.order[0]])) else b
  }

  function SendNext(b: Bus): Bus {
    if !b.flight.Peeked? then b
    else if !HasRoom(b.sub) then b.(flight := Idle)
    else Sending(b, b.flight.event).(flight := Gone(b.flight.key, b.flight.event))
  }

  function RemoveNext(b: Bus): Bus {
    if !b.flight.Gone? then b else b.(sub := Drop(b.sub, b.flight.key), flight := Idle)
  }

  function ReceiveNext(b: Bus): Bus {
    if b.sub.ch == [] then b else b.(sub := b.sub.(ch := b.sub.ch[1..]), received := b.received + [b.sub.ch[0]])
  }

  /** A step that is not enabled changes nothing. */
  function Next(b: Bus, s: Step): Bus {
    match s
    case BeginStep(e) => BeginNext(b, e)
    case TryStep(i) => TryNext(b, i)
    case EnqueueStep(i) => EnqueueNext(b, i)
    case ClearStep(i) => ClearNext(b, i)
    case PeekStep => PeekNext(b)
    case SendStep => SendNext(b)
    case RemoveStep => RemoveNext(b)
    case ReceiveStep => ReceiveNext(b)
  }

  function After(capacity: nat, run: seq<Step>, n: nat): Bus
    requires n <= |run|
  {
    if n == 0 then Start(capacity) else Next(After(capacity, run, n - 1), run[n - 1])
  }

  /** The pieces of a delivery without interruption. */
  function Delivering(b: Bus, e: Event): Bus {
    var i := |b.emissions|;
    ClearNext(EnqueueNext(TryNext(BeginNext(b, e), i), i), i)
  }

  /** An uninterrupted delivery is the whole of deliver. */
  lemma DeliveryIsItsPieces(b: Bus, e: Event)
    ensures var (sub, fate) := Deliver(b.sub, e);
            var b' := Delivering(b, e);
            && b'.sub == sub && b'.emissions == b.emissions
            && b'.sent == (if fate == Sent then b.sent + [e] else b.sent)
            && b'.accepted == (if fate == Dropped then b.accepted else b.accepted + [e])
            && b'.dropped == (if fate == Dropped then b.dropped + [e] else b.dropped)
  {
    var es, i := b.emissions, |b.emissions|;
    if e.key.Some? && e.key.value !in b.sub.pending {
      var k := e.key.value;
      forall p: Phase, q: Phase ensures (es + [Emission(k, e, p)])[i := Emission(k, e, q)] == es + [Emission(k, e, q)] {
      }
      forall p: Phase ensures Without(es + [Emission(k, e, p)], i) == es {
      }
    }
  }

  // ---------------------------------------------------------------------------
  // Structure and conservation
  // ---------------------------------------------------------------------------

  ghost predicate PendingKeyed(s: Sub) {
    forall k :: k in s.pending ==> s.pending[k].key == Some(k)
  }

  ghost predicate EmissionsKeyed(es: seq<Emission>) {
    forall i :: 0 <= i < |es| ==> es[i].event.key == Some(es[i].key)
  }

  /** Whatever is held between two locked pieces carries its own key. */
  ghost predicate Keyed(b: Bus) {
    PendingKeyed(b.sub) && EmissionsKeyed(b.emissions) && (!b.flight.Idle? ==> b.flight.event.key == Some(b.flight.key))
  }

  ghost predicate Sound(b: Bus) {
    WellFormed(b.sub) && Keyed(b) && b.received + b.sub.ch == b.sent
  }

  lemma SendingSound(b: Bus, e: Event)
    requires WellFormed(b.sub) && b.received + b.sub.ch == b.sent && HasRoom(b.sub)
    ensures var b' := Sending(b, e); WellFormed(b'.sub) && b'.received + b'.sub.ch == b'.sent
  {
    assert b.received + (b.sub.ch + [e]) == b.sent + [e];
  }

  lemma BeginSound(b: Bus, e: Event)
    requires Sound(b)
    ensures Sound(BeginNext(b, e))
  {
    if HasRoom(b.sub) {
      SendingSound(b, e);
    }
  }

  lemma TrySound(b: Bus, i: nat)
    requires Sound(b)
    ensures Sound(TryNext(b, i))
  {
    if HasRoom(b.sub) && i < |b.emissions| {
      SendingSound(b, b.emissions[i].event);
    }
  }

  lemma EnqueueSound(b: Bus, i: nat)
    requires Sound(b)
    ensures Sound(EnqueueNext(b, i))
  {
  }

  lemma DropSound(b: Bus, k: string)
    requires Sound(b)
    ensures Sound(b.(sub := Drop(b.sub, k)))
  {
    DropKeeps(b.sub, k);
  }

  lemma ClearSound(b: Bus, i: nat)
    requires Sound(b)
    ensures Sound(ClearNext(b, i))
  {
    if i < |b.emissions| {
      DropSound(b, b.emissions[i].key);
    }
  }

  lemma FlusherSound(b: Bus, s: Step)
    requires Sound(b) && (s.PeekStep? || s.SendStep? || s.RemoveStep? || s.ReceiveStep?)
    ensures Sound(Next(b, s))
  {
    if s.SendStep? && b.flight.Peeked? && HasRoom(b.sub) {
      SendingSound(b, b.flight.event);
    } else if s.RemoveStep? && b.flight.Gone? {
      DropSound(b, b.flight.key);
    }
  }

  lemma NextSound(b: Bus, s: Step)
    requires Sound(b)
    ensures Sound(Next(b, s))
  {
    match s {
      case EnqueueStep(i) => EnqueueSound(b, i);
      case ClearStep(i) => ClearSound(b, i);
      case BeginStep(e) => BeginSound(b, e);
      case TryStep(i) => TrySound(b, i);
      case _ => FlusherSound(b, s);
    }
  }

  /** In every reachable state the backlog is well formed and the channel is what was sent and not yet received. */
  lemma {:induction false} RunSound(capacity: nat, run: seq<Step>, n: nat)
    requires n <= |run|
    ensures Sound(After(capacity, run, n))
    decreases n
  {
    if n > 0 {
      RunSound(capacity, run, n - 1);
      NextSound(After(capacity, run, n - 1), run[n - 1]);
    }
  }

  function Begun(run: seq<Step>, n: nat): seq<Event>
    requires n <= |run|
  {
    if n == 0 then []
    else if run[n - 1].BeginStep? then Begun(run, n - 1) + [run[n - 1].event]
    else Begun(run, n - 1)
  }

  /** One for a delivery of e that has been neither accepted nor dropped yet. */
  function Weight(em: Emission, e: Event): nat {
    if em.phase != Clearing && em.event == e then 1 else 0
  }

  /** How often an event is under way without having been accepted or dropped. */
  function Undecided(es: seq<Emission>, e: Event): nat {
    if es == [] then 0 else Undecided(es[..|es| - 1], e) + Weight(es[|es| - 1], e)
  }

  lemma {:induction false} UndecidedConcat(a: seq<Emission>, b: seq<Emission>, e: Event)
    ensures Undecided(a + b, e) == Undecided(a, e) + Undecided(b, e)
  {
    if b == [] {
      assert a + b == a;
    } else {
      assert (a + b)[..|a + b| - 1] == a + b[..|b| - 1];
      UndecidedConcat(a, b[..|b| - 1], e);
    }
  }

  lemma UndecidedWith(es: seq<Emission>, i: nat, em: Emission, e: Event)
    requires i < |es|
    ensures Undecided(es[i := em], e) == Undecided(Without(es, i), e) + Weight(em, e)
  {
    UndecidedConcat(es[..i], es[i + 1..], e);
    assert es[i := em] == es[..i] + [em] + es[i + 1..];
    assert [em][..0] == [];
    UndecidedConcat(es[..i], [em], e);
    UndecidedConcat(es[..i] + [em], es[i + 1..], e);
  }

  lemma UndecidedAt(es: seq<Emission>, i: nat, e: Event)
    requires i < |es|
    ensures Undecided(es, e) == Undecided(Without(es, i), e) + Weight(es[i], e)
  {
    UndecidedWith(es, i, es[i], e);
    assert es[i := es[i]] == es;
  }

  /** The books of one event: as often as begun, it is accepted, dropped or undecided. */
  function Booked(b: Bus, e: Event): nat {
    multiset(b.accepted)[e] + multiset(b.dropped)[e] + Undecided(b.emissions, e)
  }

  lemma AcceptBooks(b: Bus, x: Event, e: Event)
    ensures multiset(b.accepted + [x])[e] == multiset(b.accepted)[e] + if x == e then 1 else 0
    ensures multiset(b.dropped + [x])[e] == multiset(b.dropped)[e] + if x == e then 1 else 0
  {
  }

  lemma BeginBooks(b: Bus, x: Event, e: Event)
    ensures Booked(BeginNext(b, x), e) == Booked(b, e) + if x == e then 1 else 0
  {
    AcceptBooks(b, x, e);
    if x.key.Some? && x.key.value !in b.sub.pending {
      var em := Emission(x.key.value, x, if b.sub.order != [] then Queueing else Trying);
      UndecidedConcat(b.emissions, [em], e);
      assert [em][..0] == [];
    }
  }

  lemma TryBooks(b: Bus, i: nat, e: Event)
    ensures Booked(TryNext(b, i), e) == Booked(b, e)
  {
    if i < |b.emissions| && b.emissions[i].phase == Trying {
      var em := b.emissions[i];
      AcceptBooks(b, em.event, e);
      UndecidedAt(b.emissions, i, e);
      UndecidedWith(b.emissions, i, em.(phase := if HasRoom(b.sub) then Clearing else Queueing), e);
    }
  }

  lemma EnqueueBooks(b: Bus, i: nat, e: Event)
    ensures Booked(EnqueueNext(b, i), e) == Booked(b, e)
  {
    if i < |b.emissions| {
      AcceptBooks(b, b.emissions[i].event, e);
      UndecidedAt(b.emissions, i, e);
    }
  }

  lemma ClearBooks(b: Bus, i: nat, e: Event)
    ensures Booked(ClearNext(b, i), e) == Booked(b, e)
  {
    if i < |b.emissions| {
      UndecidedAt(b.emissions, i, e);
    }
  }

  lemma StepBooks(b: Bus, s: Step, e: Event)
    ensures Booked(Next(b, s), e) == Booked(b, e) + if s.BeginStep? && s.event == e then 1 else 0
  {
    match s {
      case BeginStep(x) => BeginBooks(b, x, e);
      case TryStep(i) => TryBooks(b, i, e);
      case EnqueueStep(i) => EnqueueBooks(b, i, e);
      case ClearStep(i) => ClearBooks(b, i, e);
      case _ =>
    }
  }

  /** Every event given to the subscriber is accepted, counted as a drop, or still under way. */
  lemma {:induction false} DropsCounted(capacity: nat, run: seq<Step>, n: nat, e: Event)
    requires n <= |run|
    ensures multiset(Begun(run, n))[e] == Booked(After(capacity, run, n), e)
    decreases n
  {
    if n > 0 {
      DropsCounted(capacity, run, n - 1, e);
      StepBooks(After(capacity, run, n - 1), run[n - 1], e);
    }
  }
}
