/**
 The sharded decision queue: work is routed by its (provider, source) stream to one of
 several bounded queues, each drained in batches by its own worker. Submissions and
 workers interleave freely.
 */
module DecisionQueue {
  import opened Sequences

  const BATCH_SIZE := 64

  /** A unit of work; `serial` tells work of one stream apart. */
  datatype Work = Work(provider: string, source: string, serial: nat)

  type Stream = (string, string)

  function StreamOf(w: Work): Stream {
    (w.provider, w.source)
  }

  /** The stream hash, whatever it is. */
  type Route = Stream -> nat

  function ShardIndex(route: Route, w: Work, count: nat): (i: nat)
    ensures count >= 1 ==> i < count
  {
    if count <= 1 then 0 else route(StreamOf(w)) % count
  }

  // ---------------------------------------------------------------------------
  // Sizing
  // ---------------------------------------------------------------------------

  function Apart(a: int, b: int): nat {
    if a < b then b - a else a - b
  }

  /** How many shards a buffer is split over: as near to the workers as one slot per shard allows. */
  function ShardCount(buffer: nat, workers: int): (n: nat)
    requires buffer >= 1
    ensures 1 <= n <= buffer && forall k :: 1 <= k <= buffer ==> Apart(n, workers) <= Apart(k, workers)
  {
    if workers <= 1 then 1 else if workers > buffer then buffer else workers
  }

  function PerShard(buffer: nat, count: nat): nat
    requires count >= 1
  {
    var q := (buffer + count - 1) / count;
    if q > 1 then q else 1
  }

  /** The shards together hold at least the configured buffer and less than one extra slot per shard. */
  lemma CapacityBounds(buffer: nat, workers: int)
    requires buffer >= 1
    ensures var n := ShardCount(buffer, workers); buffer <= n * PerShard(buffer, n) <= buffer + n - 1
  {
    var n := ShardCount(buffer, workers);
    var t := buffer + n - 1;
    var q, r := t / n, t % n;
    assert t == n * q + r && 0 <= r < n;
  }

  // ---------------------------------------------------------------------------
  // Steps
  // ---------------------------------------------------------------------------

  datatype Shard = Shard(queue: seq<Work>, batch: seq<Work>, processed: seq<Work>, dropped: seq<Work>)

  datatype Group = Group(capacity: nat, shards: seq<Shard>, submitted: seq<Work>)

  datatype Step = Submit(work: Work) | Take(shard: nat) | Finish(shard: nat)

  function Start(capacity: nat, count: nat): Group {
    Group(capacity, seq(count, i => Shard([], [], [], [])), [])
  }

  function Enqueue(capacity: nat, s: Shard, w: Work): Shard {
    if |s.queue| < capacity then s.(queue := s.queue + [w]) else s.(dropped := s.dropped + [w])
  }

  /** The worker receives one more piece of work into its batch, if there is room and work. */
  function Receive(s: Shard): Shard {
    if s.queue != [] && |s.batch| < BATCH_SIZE then s.(queue := s.queue[1..], batch := s.batch + [s.queue[0]]) else s
  }

  /** Receiving until the batch is full or nothing waits. */
  function Drain(s: Shard): Shard
    decreases |s.queue|
  {
    if s.queue != [] && |s.batch| < BATCH_SIZE then Drain(Receive(s)) else s
  }

  function Process(s: Shard): Shard {
    s.(processed := s.processed + s.batch, batch := [])
  }

  /** A step on a shard that does not exist changes nothing. */
  function Next(route: Route, g: Group, step: Step): Group {
    match step
    case Submit(w) =>
      var i := ShardIndex(route, w, |g.shards|);
      if i < |g.shards|
      then g.(shards := g.shards[i := Enqueue(g.capacity, g.shards[i], w)], submitted := g.submitted + [w])
      else g
    case Take(i) => if i < |g.shards| then g.(shards := g.shards[i := Receive(g.shards[i])]) else g
    case Finish(i) => if i < |g.shards| then g.(shards := g.shards[i := Process(g.shards[i])]) else g
  }

  function After(route: Route, capacity: nat, count: nat, run: seq<Step>, n: nat): (g: Group)
    requires n <= |run|
    ensures |g.shards| == count && g.capacity == capacity
  {
    if n == 0 then Start(capacity, count) else Next(route, After(route, capacity, count, run, n - 1), run[n - 1])
  }

  // ---------------------------------------------------------------------------
  // Order within a stream
  // ---------------------------------------------------------------------------

  function RouteTest(route: Route, count: nat, i: nat): Work -> bool {
    (w: Work) => ShardIndex(route, w, count) == i
  }

  function StreamTest(s: Stream): Work -> bool {
    (w: Work) => StreamOf(w) == s
  }

  /** Everything a shard has accepted, oldest first. */
  function Line(s: Shard): seq<Work> {
    s.processed + s.batch + s.queue
  }

  ghost predicate ShardSound(route: Route, g: Group, i: nat)
    requires i < |g.shards|
  {
    var s := g.shards[i];
    && |s.queue| <= g.capacity && |s.batch| <= BATCH_SIZE
    && Subsequence(Line(s), Filter(g.submitted, RouteTest(route, |g.shards|, i)))
    && (forall w :: w in Line(s) ==> ShardIndex(route, w, |g.shards|) == i)
  }

  lemma EnqueueLine(capacity: nat, s: Shard, w: Work, base: seq<Work>)
    requires Subsequence(Line(s), base)
    ensures var s' := Enqueue(capacity, s, w);
            Subsequence(Line(s'), base + [w]) && (forall x :: x in Line(s') ==> x in Line(s) || x == w)
  {
    SubsequenceGrow(Line(s), base, w);
    assert s.processed + s.batch + (s.queue + [w]) == Line(s) + [w];
  }

  lemma ReceiveLine(s: Shard)
    ensures Line(Receive(s)) == Line(s)
  {
  }

  lemma ProcessLine(s: Shard)
    ensures Line(Process(s)) == Line(s)
  {
  }

  lemma SubmitSound(route: Route, g: Group, w: Work, i: nat)
    requires i < |g.shards| && ShardSound(route, g, i)
    ensures ShardSound(route, Next(route, g, Submit(w)), i)
  {
    FilterSnoc(g.submitted, w, RouteTest(route, |g.shards|, i));
    if ShardIndex(route, w, |g.shards|) == i {
      EnqueueLine(g.capacity, g.shards[i], w, Filter(g.submitted, RouteTest(route, |g.shards|, i)));
    }
  }

  lemma StepSound(route: Route, g: Group, step: Step, i: nat)
    requires i < |g.shards| && ShardSound(route, g, i)
    ensures ShardSound(route, Next(route, g, step), i)
  {
    match step {
      case Submit(w) => SubmitSound(route, g, w, i);
      case Take(_) => ReceiveLine(g.shards[i]);
      case Finish(_) => ProcessLine(g.shards[i]);
    }
  }

  /** In every run each queue and batch stays within its bound and each shard keeps the order of its submissions. */
  lemma {:induction false} RunSound(route: Route, capacity: nat, count: nat, run: seq<Step>, n: nat, i: nat)
    requires n <= |run| && i < count
    ensures ShardSound(route, After(route, capacity, count, run, n), i)
    decreases n
  {
    if n == 0 {
      assert Line(Start(capacity, count).shards[i]) == [];
    } else {
      RunSound(route, capacity, count, run, n - 1, i);
      StepSound(route, After(route, capacity, count, run, n - 1), run[n - 1], i);
    }
  }

  lemma {:induction false} StreamWithinRoute(route: Route, count: nat, ws: seq<Work>, s: Stream, i: nat)
    requires count >= 1 && (if count <= 1 then 0 else route(s) % count) == i
    ensures Filter(Filter(ws, RouteTest(route, count, i)), StreamTest(s)) == Filter(ws, StreamTest(s))
  {
    if ws != [] {
      var init, w := ws[..|ws| - 1], ws[|ws| - 1];
      StreamWithinRoute(route, count, init, s, i);
      if ShardIndex(route, w, count) == i {
        FilterSnoc(Filter(init, RouteTest(route, count, i)), w, StreamTest(s));
      }
    }
  }

  /**
   The work processed for a stream is a subsequence of its submissions, and only its own
   shard ever holds any of it.
   */
  lemma StreamInOrder(route: Route, capacity: nat, count: nat, run: seq<Step>, n: nat, s: Stream)
    requires n <= |run| && count >= 1
    ensures var g, i := After(route, capacity, count, run, n), if count <= 1 then 0 else route(s) % count;
            && i < count
            && Subsequence(Filter(g.shards[i].processed, StreamTest(s)), Filter(g.submitted, StreamTest(s)))
            && forall j, w :: 0 <= j < count && j != i && w in Line(g.shards[j]) ==> StreamOf(w) != s
  {
    var g := After(route, capacity, count, run, n);
    var i := if count <= 1 then 0 else route(s) % count;
    RunSound(route, capacity, count, run, n, i);
    var routed := Filter(g.submitted, RouteTest(route, count, i));
    PrefixSubsequence(g.shards[i].processed, Line(g.shards[i]));
    SubsequenceTransitive(g.shards[i].processed, Line(g.shards[i]), routed);
    FilterSubsequence(g.shards[i].processed, routed, StreamTest(s));
    StreamWithinRoute(route, count, g.submitted, s, i);
    forall j, w | 0 <= j < count && j != i && w in Line(g.shards[j]) ensures StreamOf(w) != s {
      RunSound(route, capacity, count, run, n, j);
    }
  }

  // ---------------------------------------------------------------------------
  // Conservation
  // ---------------------------------------------------------------------------

  /** How often a piece of work occurs in the batch, queue, processed and dropped work of a shard. */
  function Held(s: Shard, w: Work): nat {
    multiset(s.processed)[w] + multiset(s.batch)[w] + multiset(s.queue)[w] + multiset(s.dropped)[w]
  }

  function Total(shards: seq<Shard>, w: Work): nat {
    if shards == [] then 0 else Total(shards[..|shards| - 1], w) + Held(shards[|shards| - 1], w)
  }

  lemma {:induction false} TotalUpdate(shards: seq<Shard>, i: nat, s: Shard, w: Work)
    requires i < |shards|
    ensures Total(shards[i := s], w) == Total(shards, w) + Held(s, w) - Held(shards[i], w)
  {
    var init, last := shards[..|shards| - 1], |shards| - 1;
    if i == last {
      assert shards[i := s][..last] == init;
    } else {
      TotalUpdate(init, i, s, w);
      assert shards[i := s][..last] == init[i := s];
    }
  }

  lemma EnqueueHeld(s: Shard, capacity: nat, x: Work, w: Work)
    ensures Held(Enqueue(capacity, s, x), w) == Held(s, w) + if x == w then 1 else 0
  {
  }

  lemma ReceiveHeld(s: Shard, w: Work)
    ensures Held(Receive(s), w) == Held(s, w)
  {
    if s.queue != [] {
      assert s.queue == [s.queue[0]] + s.queue[1..];
    }
  }

  lemma ProcessHeld(s: Shard, w: Work)
    ensures Held(Process(s), w) == Held(s, w)
  {
  }

  ghost predicate Conserved(g: Group, w: Work) {
    multiset(g.submitted)[w] == Total(g.shards, w)
  }

  lemma StepConserves(route: Route, g: Group, step: Step, w: Work)
    requires Conserved(g, w)
    ensures Conserved(Next(route, g, step), w)
  {
    match step {
      case Submit(x) =>
        var i := ShardIndex(route, x, |g.shards|);
        if i < |g.shards| {
          EnqueueHeld(g.shards[i], g.capacity, x, w);
          TotalUpdate(g.shards, i, Enqueue(g.capacity, g.shards[i], x), w);
        }
      case Take(i) =>
        if i < |g.shards| {
          ReceiveHeld(g.shards[i], w);
          TotalUpdate(g.shards, i, Receive(g.shards[i]), w);
        }
      case Finish(i) =>
        if i < |g.shards| {
          ProcessHeld(g.shards[i], w);
          TotalUpdate(g.shards, i, Process(g.shards[i]), w);
        }
    }
  }

  lemma {:induction false} EmptyTotal(shards: seq<Shard>, w: Work)
    requires forall i :: 0 <= i < |shards| ==> shards[i] == Shard([], [], [], [])
    ensures Total(shards, w) == 0
  {
    if shards != [] {
      EmptyTotal(shards[..|shards| - 1], w);
    }
  }

  /** Every piece of work is processed, in a batch, queued or dropped exactly as often as it was submitted. */
  lemma {:induction false} Conservation(route: Route, capacity: nat, count: nat, run: seq<Step>, n: nat, w: Work)
    requires n <= |run|
    ensures Conserved(After(route, capacity, count, run, n), w)
    decreases n
  {
    if n == 0 {
      EmptyTotal(Start(capacity, count).shards, w);
    } else {
      Conservation(route, capacity, count, run, n - 1, w);
      StepConserves(route, After(route, capacity, count, run, n - 1), run[n - 1], w);
    }
  }

  /** Work is dropped exactly when it is submitted to a shard whose queue is full; the shard is that of its stream. */
  lemma DropIff(route: Route, capacity: nat, count: nat, run: seq<Step>, n: nat, i: nat)
    requires n < |run| && i < count
    ensures var s := After(route, capacity, count, run, n).shards[i];
            var s' := After(route, capacity, count, run, n + 1).shards[i];
            var full := run[n].Submit? && ShardIndex(route, run[n].work, count) == i && |s.queue| == capacity;
            && (full ==> s'.dropped == s.dropped + [run[n].work] && s'.queue == s.queue)
            && (!full ==> s'.dropped == s.dropped)
  {
    RunSound(route, capacity, count, run, n, i);
  }

  // ---------------------------------------------------------------------------
  // One processor as the code keeps it
  // ---------------------------------------------------------------------------

  class Processor {
    const capacity: nat
    var queue: seq<Work>
    var dropped: nat

    constructor (buffer: nat)
      ensures capacity == buffer && queue == [] && dropped == 0
    {
      capacity, queue, dropped := buffer, [], 0;
    }

    method Submit(w: Work)
      requires |queue| <= capacity
      modifies this
      ensures |queue| <= capacity
      ensures queue == Enqueue(capacity, Shard(old(queue), [], [], []), w).queue
      ensures if |old(queue)| < capacity then queue == old(queue) + [w] && dropped == old(dropped)
              else queue == old(queue) && dropped == old(dropped) + 1
    {
      if |queue| < capacity {
        queue := queue + [w];
      } else {
        dropped := dropped + 1;
      }
    }

    /** The first piece of work and as many more as are waiting, up to the batch size. */
    method DequeueBatch(first: Work) returns (batch: seq<Work>)
      modifies this`queue
      ensures 1 <= |batch| <= BATCH_SIZE && batch + queue == [first] + old(queue)
      ensures |batch| == BATCH_SIZE || queue == []
      ensures Shard(queue, batch, [], []) == Drain(Shard(old(queue), [first], [], []))
    {
      batch := [first];
      while |batch| < BATCH_SIZE
        invariant 1 <= |batch| <= BATCH_SIZE && batch + queue == [first] + old(queue)
        invariant Drain(Shard(queue, batch, [], [])) == Drain(Shard(old(queue), [first], [], []))
        decreases BATCH_SIZE - |batch|
      {
        if |queue| == 0 {
          return;
        }
        assert batch + [queue[0]] + queue[1..] == batch + queue;
        batch := batch + [queue[0]];
        queue := queue[1..];
      }
    }
  }
}
