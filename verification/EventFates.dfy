/**
 Which events a subscriber takes and where they go, told from the state before the call
 alone; and over all interleavings of the locked pieces, the only states in which one is dropped.
 */
module EventFates {
  import opened Wrappers
  import opened Sequences
  import opened EventBus

  predicate ChannelFull(s: Sub) {
    |s.ch| == s.capacity
  }

  predicate BacklogFull(s: Sub) {
    |s.pending| == PENDING_LIMIT
  }

  lemma {:induction false} ListingSize(order: seq<string>, keys: set<string>)
    requires NoDuplicates(order) && forall k :: k in order <==> k in keys
    ensures |order| == |keys|
    decreases |order|
  {
    if order == [] {
      assert keys == {};
    } else {
      NoDuplicatesTail(order);
      var rest := order[1..];
      forall k ensures k in rest <==> k in keys - {order[0]} {
        assert k in order <==> k == order[0] || k in rest;
      }
      ListingSize(rest, keys - {order[0]});
    }
  }

  /** A well-formed backlog lists as many keys as are pending. */
  lemma BacklogSize(s: Sub)
    requires WellFormed(s)
    ensures |s.order| == |s.pending| <= PENDING_LIMIT
  {
    ListingSize(s.order, s.pending.Keys);
    assert |s.pending| == |s.pending.Keys|;
  }

  /**
   An unkeyed event is refused when the channel is full; a keyed one when its key is not
   pending, the backlog is full, and it would have to join the backlog.
   */
  predicate Refused(s: Sub, e: Event) {
    if e.key.None? then ChannelFull(s)
    else e.key.value !in s.pending && BacklogFull(s) && (s.pending != map[] || ChannelFull(s))
  }

  /** Where an event that is not refused goes. */
  predicate Placed(s: Sub, e: Event, s': Sub) {
    if e.key.Some? && e.key.value in s.pending then
      // its key's value is replaced, and the key keeps its turn
      s'.ch == s.ch && s'.pending == s.pending[e.key.value := e] && s'.order == s.order
    else if e.key.None? || (s.pending == map[] && !ChannelFull(s)) then
      // it goes to the end of the channel
      s'.ch == s.ch + [e] && s'.pending == s.pending && s'.order == s.order
    else
      // its key takes the last turn of the backlog
      s'.ch == s.ch && s'.pending == s.pending[e.key.value := e] && s'.order == s.order + [e.key.value]
  }

  /** A delivery drops exactly the refused events, changing nothing, and puts all others in their place. */
  lemma DeliverDecides(s: Sub, e: Event)
    requires WellFormed(s)
    ensures var (s', fate) := Deliver(s, e);
            && (fate == Dropped <==> Refused(s, e)) && s'.capacity == s.capacity
            && if Refused(s, e) then s' == s else Placed(s, e, s')
  {
    BacklogSize(s);
    assert s.order == [] <==> s.pending == map[];
  }

  // ---------------------------------------------------------------------------
  // Over runs
  // ---------------------------------------------------------------------------

  /** The event that a step decides to drop: an unkeyed one on a full channel, or a queueing one on a full backlog. */
  ghost predicate DropsAt(b: Bus, s: Step, e: Event) {
    || (s == BeginStep(e) && e.key.None? && ChannelFull(b.sub))
    || (s.EnqueueStep? && s.i < |b.emissions| && b.emissions[s.i].event == e && b.emissions[s.i].phase == Queueing &&
        b.emissions[s.i].key !in b.sub.pending && BacklogFull(b.sub))
  }

  /** A step counts a drop exactly if it finds an event with nowhere to go. */
  lemma DropIff(capacity: nat, run: seq<Step>, n: nat)
    requires n < |run|
    ensures var b, b' := After(capacity, run, n), After(capacity, run, n + 1);
            && (b'.dropped == b.dropped <==> forall e :: !DropsAt(b, run[n], e))
            && (forall e :: DropsAt(b, run[n], e) ==> b'.dropped == b.dropped + [e] && b'.sub == b.sub)
  {
    RunSound(capacity, run, n);
    var b := After(capacity, run, n);
    BacklogSize(b.sub);
    var s := run[n];
    if s.BeginStep? && s.event.key.None? && ChannelFull(b.sub) {
      assert DropsAt(b, s, s.event);
    }
    if s.EnqueueStep? && s.i < |b.emissions| {
      if DropsAt(b, s, b.emissions[s.i].event) {
      }
    }
  }

  /** Step m sent event e to the backlog: it began behind one, or found no room in the channel. */
  ghost predicate HeldBackAt(capacity: nat, run: seq<Step>, m: nat, e: Event) {
    m < |run| &&
    var b := After(capacity, run, m);
    || (run[m] == BeginStep(e) && e.key.Some? && e.key.value !in b.sub.pending && b.sub.pending != map[])
    || (run[m].TryStep? && run[m].i < |b.emissions| && b.emissions[run[m].i].event == e && ChannelFull(b.sub))
  }

  ghost predicate HeldBack(capacity: nat, run: seq<Step>, n: nat, e: Event) {
    exists m: nat :: m < n && HeldBackAt(capacity, run, m, e)
  }

  /** A step starts queueing an event only by holding it back. */
  lemma StartsQueueing(capacity: nat, run: seq<Step>, n: nat, em: Emission)
    requires n < |run| && em.phase == Queueing
    requires em in After(capacity, run, n + 1).emissions && em !in After(capacity, run, n).emissions
    ensures HeldBackAt(capacity, run, n, em.event)
  {
    RunSound(capacity, run, n);
    var b := After(capacity, run, n);
    BacklogSize(b.sub);
    assert b.sub.order == [] <==> b.sub.pending == map[];
  }

  lemma {:induction false} QueueingHeldBack(capacity: nat, run: seq<Step>, n: nat, em: Emission)
    requires n <= |run| && em.phase == Queueing && em in After(capacity, run, n).emissions
    ensures HeldBack(capacity, run, n, em.event)
    decreases n
  {
    if n > 0 {
      var last := n - 1;
      if em in After(capacity, run, last).emissions {
        QueueingHeldBack(capacity, run, last, em);
        var m: nat :| m < last && HeldBackAt(capacity, run, m, em.event);
        assert m < n;
      } else {
        StartsQueueing(capacity, run, last, em);
      }
    }
  }

  /**
   In every interleaving a drop is of an unkeyed event that finds the channel full, or of a
   keyed one that was held back by a backlog or a full channel and then finds the backlog full.
   */
  lemma DropMeansNoPlace(capacity: nat, run: seq<Step>, n: nat, e: Event)
    requires n < |run| && DropsAt(After(capacity, run, n), run[n], e)
    ensures var s := After(capacity, run, n).sub;
            if e.key.None? then ChannelFull(s)
            else e.key.value !in s.pending && BacklogFull(s) && HeldBack(capacity, run, n, e)
  {
    RunSound(capacity, run, n);
    var b := After(capacity, run, n);
    if run[n].EnqueueStep? {
      QueueingHeldBack(capacity, run, n, b.emissions[run[n].i]);
    }
  }

  /** The flusher's pieces without interruption move the oldest pending event to the channel, if there is room. */
  lemma FlushIsItsPieces(b: Bus)
    requires Sound(b) && b.flight.Idle?
    ensures var b' := RemoveNext(SendNext(PeekNext(b)));
            if b.sub.order == [] || ChannelFull(b.sub) then b' == b
            else
              var k := b.sub.order[0];
              && k in b.sub.pending && b'.sub.ch == b.sub.ch + [b.sub.pending[k]]
              && b'.sub.order == b.sub.order[1..] && b'.sub.pending == b.sub.pending - {k}
              && b'.flight.Idle? && b'.sent == b.sent + [b.sub.pending[k]]
  {
    if b.sub.order != [] {
      assert b.sub.order[0] in b.sub.order;
    }
  }
}
