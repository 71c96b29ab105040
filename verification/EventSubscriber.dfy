/** The subscriber as the code keeps it: a bounded channel, a map of pending events and their order. */
module EventSubscriber {
  import opened Wrappers
  import opened Sequences
  import opened EventBus
  import EventFates

  /** The keys of a well-formed backlog before position n carry these events. */
  function Queued(pending: map<string, Event>, order: seq<string>, n: nat): (es: seq<Event>)
    requires n <= |order| && forall k :: k in order ==> k in pending
    ensures |es| == n
  {
    seq(n, i requires 0 <= i < n => pending[order[i]])
  }

  /** Removing the key at its position is removing the key. */
  lemma {:induction false} RemoveAtKey(order: seq<string>, i: nat)
    requires NoDuplicates(order) && i < |order|
    ensures RemoveKey(order, order[i]) == order[..i] + order[i + 1..]
  {
    if i > 0 {
      assert order[0] != order[i];
      assert NoDuplicates(order[1..]);
      RemoveAtKey(order[1..], i - 1);
      assert order[1..][i - 1] == order[i];
      assert [order[0]] + (order[1..][..i - 1] + order[1..][i..]) == order[..i] + order[i + 1..];
    }
  }

  lemma {:induction false} RemoveAbsentKey(order: seq<string>, k: string)
    requires k !in order
    ensures RemoveKey(order, k) == order
  {
    if order != [] {
      RemoveAbsentKey(order[1..], k);
    }
  }

  /** The first n keys of the backlog have moved to the channel, in order, with their values. */
  ghost predicate Flushed(before: Sub, after: Sub, n: nat) {
    && (forall k :: k in before.order ==> k in before.pending) && n <= |before.order|
    && after.capacity == before.capacity
    && after.ch == before.ch + Queued(before.pending, before.order, n)
    && after.order == before.order[n..]
    && forall k :: k in after.pending ==> k in before.pending && after.pending[k] == before.pending[k]
  }

  lemma FlushedStep(start: Sub, before: Sub, after: Sub, n: nat)
    requires Flushed(start, before, n) && before.order != [] && before.order[0] in before.pending
    requires after.capacity == before.capacity && after.ch == before.ch + [before.pending[before.order[0]]]
    requires after.order == before.order[1..] && after.pending == before.pending - {before.order[0]}
    ensures Flushed(start, after, n + 1)
  {
  }

  class Subscriber {
    const capacity: nat
    var ch: seq<Event>
    var pending: map<string, Event>
    var pendingOrder: seq<string>

    ghost function Model(): Sub
      reads this
    {
      Sub(capacity, ch, pending, pendingOrder)
    }

    ghost predicate Valid()
      reads this
    {
      WellFormed(Model())
    }

    constructor (buffer: nat)
      ensures Valid() && Model() == Sub(buffer, [], map[], [])
    {
      capacity, ch, pending, pendingOrder := buffer, [], map[], [];
    }

    method EnqueuePending(key: string, event: Event) returns (ok: bool)
      requires Valid()
      modifies this`pending, this`pendingOrder
      ensures Valid() && (Model(), ok) == Enqueue(old(Model()), key, event)
    {
      if key in pending {
        pending := pending[key := event];
        return true;
      }
      if |pendingOrder| >= PENDING_LIMIT {
        return false;
      }
      pending := pending[key := event];
      pendingOrder := pendingOrder + [key];
      return true;
    }

    /** Delete a key from the map and, by searching, from the order. */
    method RemovePending(key: string)
      requires Valid()
      modifies this`pending, this`pendingOrder
      ensures Valid() && Model() == Drop(old(Model()), key)
    {
      DropKeeps(Model(), key);
      pending := pending - {key};
      var i := 0;
      while i < |pendingOrder| && pendingOrder[i] != key
        invariant 0 <= i <= |pendingOrder| && pendingOrder == old(pendingOrder)
        invariant pending == old(pending) - {key}
        invariant forall j :: 0 <= j < i ==> pendingOrder[j] != key
      {
        i := i + 1;
      }
      if i < |pendingOrder| {
        RemoveAtKey(pendingOrder, i);
        pendingOrder := pendingOrder[..i] + pendingOrder[i + 1..];
      } else {
        RemoveAbsentKey(pendingOrder, key);
      }
    }

    method ClearPending(key: string)
      requires Valid()
      modifies this`pending, this`pendingOrder
      ensures Valid() && Model() == if key in old(pending) then Drop(old(Model()), key) else old(Model())
    {
      if key in pending {
        RemovePending(key);
      }
    }

    /** The head of the backlog; a well-formed backlog has no orphaned keys to skip. */
    method PeekPending() returns (head: Option<(string, Event)>)
      requires Valid()
      ensures head.Some? <==> pendingOrder != []
      ensures head.Some? ==>
              head.value.0 == pendingOrder[0] && head.value.0 in pending && head.value.1 == pending[head.value.0]
    {
      if |pendingOrder| == 0 {
        return None;
      }
      var key := pendingOrder[0];
      return Some((key, pending[key]));
    }

    method Deliver(event: Event) returns (accepted: bool)
      requires Valid()
      modifies this
      ensures Valid()
      ensures event.key.None? ==> (accepted <==> |old(ch)| < capacity)
      ensures event.key.Some? ==> (accepted <==> event.key.value in old(pending) || |old(pending)| < PENDING_LIMIT)
      ensures if accepted then EventFates.Placed(old(Model()), event, Model()) else Model() == old(Model())
      ensures var (s, fate) := EventBus.Deliver(old(Model()), event); Model() == s && (accepted <==> fate != Dropped)
    {
      EventFates.DeliverDecides(Model(), event);
      EventFates.BacklogSize(Model());
      if event.key.Some? {
        var key := event.key.value;
        if key in pending {
          pending := pending[key := event];
          return true;
        }
        if |pendingOrder| > 0 {
          accepted := EnqueuePending(key, event);
          return;
        }
      }
      if |ch| < capacity {
        ch := ch + [event];
        if event.key.Some? {
          ClearPending(event.key.value);
        }
        return true;
      }
      if event.key.None? {
        return false;
      }
      accepted := EnqueuePending(event.key.value, event);
    }

    /** One turn of the flush loop: peek, try to send, remove. */
    method FlushOne() returns (moved: bool)
      requires Valid()
      modifies this
      ensures Valid()
      ensures moved <==> old(pendingOrder) != [] && |old(ch)| < capacity
      ensures moved ==> ch == old(ch) + [old(pending)[old(pendingOrder)[0]]] &&
                        pendingOrder == old(pendingOrder)[1..] && pending == old(pending) - {old(pendingOrder)[0]}
      ensures !moved ==> Model() == old(Model())
    {
      var head := PeekPending();
      if head.None? || |ch| >= capacity {
        return false;
      }
      ch := ch + [head.value.1];
      RemoveAtKey(pendingOrder, 0);
      RemovePending(head.value.0);
      return true;
    }

    /** Move the backlog to the channel, oldest key first, until one is empty or the other full. */
    method FlushPending()
      requires Valid()
      modifies this
      ensures Valid() && (pendingOrder == [] || |ch| == capacity)
      ensures exists n: nat :: Flushed(old(Model()), Model(), n)
    {
      ghost var n: nat := 0;
      assert Flushed(old(Model()), Model(), 0) by {
        assert ch + Queued(pending, pendingOrder, 0) == ch;
      }
      while true
        invariant Valid() && Flushed(old(Model()), Model(), n)
        decreases |pendingOrder|
      {
        ghost var before := Model();
        var moved := FlushOne();
        if !moved {
          return;
        }
        FlushedStep(old(Model()), before, Model(), n);
        n := n + 1;
      }
    }

    /** The consumer takes the oldest event. */
    method Receive() returns (event: Option<Event>)
      requires Valid()
      modifies this`ch
      ensures Valid()
      ensures if old(ch) == [] then event == None && ch == [] else event == Some(old(ch)[0]) && ch == old(ch)[1..]
    {
      if |ch| == 0 {
        return None;
      }
      event := Some(ch[0]);
      ch := ch[1..];
    }
  }
}
