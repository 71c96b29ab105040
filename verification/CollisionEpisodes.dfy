/**
 Collision events of one unordered pair: start, colliding and end, throttled by a debounce
 and forgotten after a time-to-live or as soon as the rectangle test rejects the pair.
 */
module CollisionEpisodes {
  import opened Wrappers
  import opened ProcessingState
  import Grid = CollisionGrid

  datatype Config = Config(debounce: Time, ttl: Time)

  datatype Episode = Episode(startTime: Time, lastEmitted: Time)

  type PairState = Option<Expiring<Episode>>

  /** One evaluation of the pair: its distance along each axis and the sum of its radii. */
  datatype Evaluation = Evaluation(at: Time, axes: Grid.Axes, reach: real)

  /** The rectangle test. */
  predicate MayCollide(e: Evaluation) {
    Grid.MayCollide(e.axes, e.reach)
  }

  /** The circle test. */
  predicate Touching(e: Evaluation) {
    Grid.Colliding(e.axes, e.reach)
  }

  /** The event an evaluation emits; every event but none carries the start of its episode. */
  datatype Outcome = Quiet | Start(startTime: Time) | Colliding(startTime: Time) | End(startTime: Time)

  predicate Active(st: PairState, now: Time) {
    st.Some? && st.value.expiresAt > now
  }

  function Evaluate(cfg: Config, st: PairState, e: Evaluation): (PairState, Outcome) {
    if !MayCollide(e) then (None, Quiet)
    else if !Touching(e) then
      (None, if Active(st, e.at) then End(st.value.value.startTime) else Quiet)
    else if !Active(st, e.at) then
      (Some(Expiring(Episode(e.at, e.at), e.at + cfg.ttl)), Start(e.at))
    else if cfg.debounce > 0 && e.at - st.value.value.lastEmitted < cfg.debounce then (st, Quiet)
    else
      var start := st.value.value.startTime;
      (Some(Expiring(Episode(start, e.at), e.at + cfg.ttl)), Colliding(start))
  }

  // ---------------------------------------------------------------------------
  // The key of a pair
  // ---------------------------------------------------------------------------

  predicate StringLe(a: string, b: string) {
    a == [] || (b != [] && (a[0] < b[0] || (a[0] == b[0] && StringLe(a[1..], b[1..]))))
  }

  function KeyOf(lo: string, hi: string): string {
    "hub:collision:" + lo + ":" + hi
  }

  function PairKey(a: string, b: string): string {
    if StringLe(a, b) then KeyOf(a, b) else KeyOf(b, a)
  }

  lemma {:induction false} StringLeTotal(a: string, b: string)
    ensures StringLe(a, b) || StringLe(b, a)
    ensures StringLe(a, b) && StringLe(b, a) ==> a == b
  {
    if a != [] && b != [] && a[0] == b[0] {
      StringLeTotal(a[1..], b[1..]);
      assert a == [a[0]] + a[1..] && b == [b[0]] + b[1..];
    }
  }

  /** The colon that ends the first identifier. */
  lemma SplitAtColon(a: string, b: string, c: string, d: string)
    requires a + ":" + b == c + ":" + d && ':' !in a && ':' !in c
    ensures a == c && b == d
  {
    var s := a + ":" + b;
    assert s[|a|] == ':' && s[|c|] == ':';
    assert a == s[..|a|] && b == s[|a| + 1..] && c == s[..|c|] && d == s[|c| + 1..];
  }

  lemma KeyOfInjective(lo: string, hi: string, lo': string, hi': string)
    requires KeyOf(lo, hi) == KeyOf(lo', hi') && ':' !in lo && ':' !in lo'
    ensures lo == lo' && hi == hi'
  {
    var p := "hub:collision:";
    assert KeyOf(lo, hi) == p + (lo + ":" + hi) && KeyOf(lo', hi') == p + (lo' + ":" + hi');
    assert (p + (lo + ":" + hi))[|p|..] == lo + ":" + hi;
    assert (p + (lo' + ":" + hi'))[|p|..] == lo' + ":" + hi';
    SplitAtColon(lo, hi, lo', hi');
  }

  /** One key per unordered pair of identifiers. */
  lemma PairKeyUnordered(a: string, b: string, c: string, d: string)
    requires ':' !in a && ':' !in b && ':' !in c && ':' !in d
    ensures PairKey(a, b) == PairKey(c, d) <==> (a == c && b == d) || (a == d && b == c)
  {
    StringLeTotal(a, b);
    StringLeTotal(c, d);
    var (lo, hi) := if StringLe(a, b) then (a, b) else (b, a);
    var (lo', hi') := if StringLe(c, d) then (c, d) else (d, c);
    if PairKey(a, b) == PairKey(c, d) {
      KeyOfInjective(lo, hi, lo', hi');
    }
  }

  // ---------------------------------------------------------------------------
  // Runs
  // ---------------------------------------------------------------------------

  function Before(cfg: Config, run: seq<Evaluation>, n: nat): PairState
    requires n <= |run|
  {
    if n == 0 then None else Evaluate(cfg, Before(cfg, run, n - 1), run[n - 1]).0
  }

  function Emitted(cfg: Config, run: seq<Evaluation>, n: nat): Outcome
    requires n < |run|
  {
    Evaluate(cfg, Before(cfg, run, n), run[n]).1
  }

  /** At step k a stored episode was found expired or was dropped by the rectangle test. */
  ghost predicate LostAt(cfg: Config, run: seq<Evaluation>, k: nat) {
    k < |run| && Before(cfg, run, k).Some? && (!Active(Before(cfg, run, k), run[k].at) || !MayCollide(run[k]))
  }

  /** The stored episode was last announced at step m, with nothing emitted and nothing lost since. */
  ghost predicate AnnouncedAt(cfg: Config, run: seq<Evaluation>, n: nat, m: nat) {
    && m < n <= |run| && Before(cfg, run, n).Some?
    && var e := Before(cfg, run, n).value;
       && (Emitted(cfg, run, m) == Start(e.value.startTime) || Emitted(cfg, run, m) == Colliding(e.value.startTime))
       && e.value.lastEmitted == run[m].at && e.expiresAt == run[m].at + cfg.ttl
       && forall k :: m < k < n ==> Emitted(cfg, run, k) == Quiet && !LostAt(cfg, run, k)
  }

  lemma {:induction false} AnnouncementHistory(cfg: Config, run: seq<Evaluation>, n: nat) returns (m: nat)
    requires n <= |run|
    ensures Before(cfg, run, n).Some? ==> AnnouncedAt(cfg, run, n, m)
    decreases n
  {
    m := 0;
    if n > 0 {
      m := AnnouncementHistory(cfg, run, n - 1);
      if Emitted(cfg, run, n - 1) != Quiet {
        m := n - 1;
      }
    }
  }

  /** The episode's own start event, with neither end nor loss since. */
  ghost predicate StartedAt(cfg: Config, run: seq<Evaluation>, n: nat, m: nat, start: Time) {
    && m < n <= |run| && run[m].at == start && Emitted(cfg, run, m) == Start(start)
    && forall k :: m < k < n ==> !Emitted(cfg, run, k).Start? && !Emitted(cfg, run, k).End? && !LostAt(cfg, run, k)
  }

  lemma {:induction false} StartHistory(cfg: Config, run: seq<Evaluation>, n: nat) returns (m: nat)
    requires n <= |run|
    ensures Before(cfg, run, n).Some? ==> StartedAt(cfg, run, n, m, Before(cfg, run, n).value.value.startTime)
    decreases n
  {
    m := 0;
    if n > 0 {
      m := StartHistory(cfg, run, n - 1);
      if Emitted(cfg, run, n - 1).Start? {
        m := n - 1;
      }
    }
  }

  /** Colliding and end events belong to an episode that a start event opened, and carry its time. */
  lemma InsideEpisode(cfg: Config, run: seq<Evaluation>, n: nat) returns (m: nat)
    requires n < |run| && (Emitted(cfg, run, n).Colliding? || Emitted(cfg, run, n).End?)
    ensures StartedAt(cfg, run, n, m, Emitted(cfg, run, n).startTime)
  {
    m := StartHistory(cfg, run, n);
  }

  /** The event right before a colliding event announced the same episode at least the debounce earlier. */
  lemma DebounceKept(cfg: Config, run: seq<Evaluation>, n: nat) returns (m: nat)
    requires n < |run| && Emitted(cfg, run, n).Colliding?
    ensures m < n && (Emitted(cfg, run, m).Start? || Emitted(cfg, run, m).Colliding?)
    ensures Emitted(cfg, run, m).startTime == Emitted(cfg, run, n).startTime
    ensures forall k :: m < k < n ==> Emitted(cfg, run, k) == Quiet
    ensures cfg.debounce > 0 ==> run[n].at - run[m].at >= cfg.debounce
    ensures run[n].at < run[m].at + cfg.ttl
  {
    m := AnnouncementHistory(cfg, run, n);
  }

  // ---------------------------------------------------------------------------
  // When the next event of a lasting collision comes
  // ---------------------------------------------------------------------------

  /** Evaluation m announced an episode and evaluations up to n find the pair still touching. */
  ghost predicate LastingSince(cfg: Config, run: seq<Evaluation>, m: nat, n: nat) {
    && m < n < |run| && (Emitted(cfg, run, m).Start? || Emitted(cfg, run, m).Colliding?)
    && forall k :: m < k <= n ==> MayCollide(run[k]) && Touching(run[k])
  }

  /** Evaluation k comes at least the debounce after evaluation m. */
  predicate Due(cfg: Config, run: seq<Evaluation>, m: nat, k: nat)
    requires m < |run| && k < |run|
  {
    cfg.debounce <= 0 || run[k].at - run[m].at >= cfg.debounce
  }

  predicate ExpiredSince(cfg: Config, run: seq<Evaluation>, m: nat, k: nat)
    requires m < |run| && k < |run|
  {
    run[k].at >= run[m].at + cfg.ttl
  }

  /** Before the debounce and the expiry, nothing is emitted and nothing renews the stored episode. */
  lemma {:induction false} QuietKeeps(cfg: Config, run: seq<Evaluation>, m: nat, n: nat)
    requires LastingSince(cfg, run, m, n)
    requires forall k :: m < k < n ==> !Due(cfg, run, m, k) && !ExpiredSince(cfg, run, m, k)
    ensures Before(cfg, run, n) == Before(cfg, run, m + 1)
    ensures Before(cfg, run, n) ==
            Some(Expiring(Episode(Emitted(cfg, run, m).startTime, run[m].at), run[m].at + cfg.ttl))
    ensures forall k :: m < k < n ==> Emitted(cfg, run, k) == Quiet
    decreases n
  {
    if n > m + 1 {
      QuietKeeps(cfg, run, m, n - 1);
      assert !Due(cfg, run, m, n - 1) && !ExpiredSince(cfg, run, m, n - 1);
      assert MayCollide(run[n - 1]) && Touching(run[n - 1]);
    }
  }

  /**
   The next event of a lasting collision comes with the first evaluation after the debounce
   or the expiry, whichever is first: a colliding event of the same episode if and only if
   the episode announced at m has not expired by then, and otherwise a new start.
   */
  lemma NextAnnouncement(cfg: Config, run: seq<Evaluation>, m: nat, n: nat)
    requires LastingSince(cfg, run, m, n)
    requires forall k :: m < k < n ==> !Due(cfg, run, m, k) && !ExpiredSince(cfg, run, m, k)
    requires Due(cfg, run, m, n) || ExpiredSince(cfg, run, m, n)
    ensures Emitted(cfg, run, n) ==
            if run[n].at < run[m].at + cfg.ttl then Colliding(Emitted(cfg, run, m).startTime) else Start(run[n].at)
    ensures forall k :: m < k < n ==> Emitted(cfg, run, k) == Quiet
  {
    QuietKeeps(cfg, run, m, n);
  }

  /**
   The first evaluation after the debounce gives a colliding event if and only if it comes
   before the expiry; with a debounce below the time-to-live it otherwise gives a start.
   */
  lemma FirstDueDecides(cfg: Config, run: seq<Evaluation>, m: nat, n: nat)
    requires LastingSince(cfg, run, m, n)
    requires (forall k :: m < k < n ==> !Due(cfg, run, m, k)) && Due(cfg, run, m, n)
    ensures Emitted(cfg, run, n).Colliding? <==> run[n].at < run[m].at + cfg.ttl
    ensures run[n].at < run[m].at + cfg.ttl ==> Emitted(cfg, run, n).startTime == Emitted(cfg, run, m).startTime
    ensures cfg.debounce < cfg.ttl && run[n].at >= run[m].at + cfg.ttl ==> Emitted(cfg, run, n) == Start(run[n].at)
  {
    if cfg.debounce > 0 && cfg.debounce >= cfg.ttl {
      DebounceBeyondTtlNeverColliding(cfg, run, n);
    } else {
      forall k | m < k < n ensures !ExpiredSince(cfg, run, m, k) {
        assert !Due(cfg, run, m, k);
      }
      NextAnnouncement(cfg, run, m, n);
    }
  }

  /** A time-to-live of 30 turns a collision debounced by 25 into a series of starts when evaluations come every 20. */
  lemma SparseEvaluationsRestart()
    ensures var cfg, here := Config(25, 30), Grid.Axes(0.0, 0.0);
            var run := [Evaluation(0, here, 1.0), Evaluation(20, here, 1.0), Evaluation(40, here, 1.0)];
            Emitted(cfg, run, 0) == Start(0) && Emitted(cfg, run, 1) == Quiet && Emitted(cfg, run, 2) == Start(40)
  {
    var cfg, here := Config(25, 30), Grid.Axes(0.0, 0.0);
    var run := [Evaluation(0, here, 1.0), Evaluation(20, here, 1.0), Evaluation(40, here, 1.0)];
    assert forall k :: 0 <= k < 3 ==> MayCollide(run[k]) && Touching(run[k]);
    assert Before(cfg, run, 1) == Some(Expiring(Episode(0, 0), 30));
    assert Before(cfg, run, 2) == Before(cfg, run, 1);
  }

  /** In particular a debounce that reaches the time-to-live suppresses every colliding event. */
  lemma DebounceBeyondTtlNeverColliding(cfg: Config, run: seq<Evaluation>, n: nat)
    requires n < |run| && cfg.debounce > 0 && cfg.debounce >= cfg.ttl
    ensures !Emitted(cfg, run, n).Colliding?
  {
    if Emitted(cfg, run, n).Colliding? {
      var m := DebounceKept(cfg, run, n);
    }
  }

  // ---------------------------------------------------------------------------
  // How an episode ends
  // ---------------------------------------------------------------------------

  /**
   An evaluation ends a live episode exactly when the pair is no longer within reach. It
   says so only in the corners of the rectangle, with both axes within reach and the
   distance beyond it; outside the rectangle the episode ends silently.
   */
  lemma EndsOnlyInCorners(cfg: Config, run: seq<Evaluation>, n: nat)
    requires n < |run| && Active(Before(cfg, run, n), run[n].at) && run[n].reach >= 0.0
    ensures Before(cfg, run, n + 1) == None <==> !Touching(run[n])
    ensures Emitted(cfg, run, n).End? <==>
            run[n].axes.dx <= run[n].reach && run[n].axes.dy <= run[n].reach && !Touching(run[n])
    ensures Before(cfg, run, n + 1) == None && Emitted(cfg, run, n) == Quiet <==>
            run[n].axes.dx > run[n].reach || run[n].axes.dy > run[n].reach
  {
    if Touching(run[n]) {
      Grid.CollidingMayCollide(run[n].axes, run[n].reach);
    }
  }

  /** A pair that moves out of the rectangle never gets an end event for its episode. */
  lemma LeavingRectangleIsSilent()
    ensures var cfg := Config(0, 30);
            var run := [Evaluation(0, Grid.Axes(0.0, 0.0), 1.0), Evaluation(1, Grid.Axes(2.0, 0.0), 1.0),
                        Evaluation(2, Grid.Axes(1.0, 1.0), 1.0)];
            Emitted(cfg, run, 0) == Start(0) && Emitted(cfg, run, 1) == Quiet && Emitted(cfg, run, 2) == Quiet
  {
    var cfg := Config(0, 30);
    var run := [Evaluation(0, Grid.Axes(0.0, 0.0), 1.0), Evaluation(1, Grid.Axes(2.0, 0.0), 1.0),
                Evaluation(2, Grid.Axes(1.0, 1.0), 1.0)];
    assert Before(cfg, run, 1) == Some(Expiring(Episode(0, 0), 30));
    assert Before(cfg, run, 2) == None;
  }

  lemma {:induction false} HeldSince(cfg: Config, run: seq<Evaluation>, m: nat, n: nat)
    requires m < n <= |run| && (Emitted(cfg, run, m).Start? || Emitted(cfg, run, m).Colliding?)
    requires forall k :: m < k < n ==> !Emitted(cfg, run, k).End? && !LostAt(cfg, run, k)
    ensures Before(cfg, run, n).Some?
    decreases n
  {
    if n > m + 1 {
      HeldSince(cfg, run, m, n - 1);
      assert !LostAt(cfg, run, n - 1) && !Emitted(cfg, run, n - 1).End?;
    }
  }

  /** A second start without an end between means that the episode expired or was dropped between them. */
  lemma RestartMeansLoss(cfg: Config, run: seq<Evaluation>, m: nat, n: nat) returns (k: nat)
    requires m < n < |run| && Emitted(cfg, run, m).Start? && Emitted(cfg, run, n).Start?
    requires forall i :: m < i < n ==> !Emitted(cfg, run, i).End?
    ensures m < k <= n && LostAt(cfg, run, k)
  {
    if exists i :: m < i < n && LostAt(cfg, run, i) {
      k :| m < k < n && LostAt(cfg, run, k);
    } else {
      HeldSince(cfg, run, m, n);
      k := n;
    }
  }

  lemma {:induction false} NothingSinceEnd(cfg: Config, run: seq<Evaluation>, m: nat, n: nat)
    requires m < n <= |run| && Emitted(cfg, run, m).End?
    requires forall k :: m < k < n ==> Emitted(cfg, run, k) == Quiet
    ensures Before(cfg, run, n) == None
    decreases n
  {
    if n > m + 1 {
      NothingSinceEnd(cfg, run, m, n - 1);
      assert Emitted(cfg, run, n - 1) == Quiet;
    }
  }

  /** After an end the next event of the pair is a start. */
  lemma EndCloses(cfg: Config, run: seq<Evaluation>, m: nat, n: nat)
    requires m < n < |run| && Emitted(cfg, run, m).End? && Emitted(cfg, run, n) != Quiet
    requires forall k :: m < k < n ==> Emitted(cfg, run, k) == Quiet
    ensures Emitted(cfg, run, n) == Start(run[n].at)
  {
    NothingSinceEnd(cfg, run, m, n);
  }

  // ---------------------------------------------------------------------------
  // The event of an evaluation from the events before it
  // ---------------------------------------------------------------------------

  /** Evaluation k leaves a live episode announced at m as it is: still touching, neither due nor expired. */
  ghost predicate PassesOver(cfg: Config, run: seq<Evaluation>, m: nat, k: nat)
    requires m < |run| && k < |run|
  {
    MayCollide(run[k]) && Touching(run[k]) && !Due(cfg, run, m, k) && !ExpiredSince(cfg, run, m, k)
  }

  /** The episode last announced at m is still stored before evaluation n. */
  ghost predicate OpenSince(cfg: Config, run: seq<Evaluation>, m: nat, n: nat) {
    && m < n <= |run| && (Emitted(cfg, run, m).Start? || Emitted(cfg, run, m).Colliding?)
    && forall k :: m < k < n ==> PassesOver(cfg, run, m, k)
  }

  /** What an announcement at m stores. */
  ghost function Announced(cfg: Config, run: seq<Evaluation>, m: nat): PairState
    requires m < |run| && (Emitted(cfg, run, m).Start? || Emitted(cfg, run, m).Colliding?)
  {
    Some(Expiring(Episode(Emitted(cfg, run, m).startTime, run[m].at), run[m].at + cfg.ttl))
  }

  lemma AnnouncingStores(cfg: Config, run: seq<Evaluation>, m: nat)
    requires m < |run|
    ensures Emitted(cfg, run, m).Start? || Emitted(cfg, run, m).Colliding? ==>
              Before(cfg, run, m + 1) == Announced(cfg, run, m)
    ensures Before(cfg, run, m).None? && Emitted(cfg, run, m) == Quiet ==> Before(cfg, run, m + 1) == None
    ensures Emitted(cfg, run, m).End? ==> Before(cfg, run, m + 1) == None
  {
  }

  lemma PassStep(cfg: Config, run: seq<Evaluation>, m: nat, k: nat)
    requires m < k < |run| && (Emitted(cfg, run, m).Start? || Emitted(cfg, run, m).Colliding?)
    requires Before(cfg, run, k) == Announced(cfg, run, m)
    ensures PassesOver(cfg, run, m, k) ==>
              Emitted(cfg, run, k) == Quiet && Before(cfg, run, k + 1) == Before(cfg, run, k)
    ensures !PassesOver(cfg, run, m, k) && Emitted(cfg, run, k) == Quiet ==> Before(cfg, run, k + 1) == None
  {
  }

  /** What is stored is exactly what the last announcement stored, while every evaluation since then passed it over. */
  lemma {:induction false} OpenIff(cfg: Config, run: seq<Evaluation>, n: nat)
    requires n <= |run|
    ensures Before(cfg, run, n).Some? ==> exists m: nat :: OpenSince(cfg, run, m, n)
    ensures forall m: nat :: OpenSince(cfg, run, m, n) ==> Before(cfg, run, n) == Announced(cfg, run, m)
    decreases n
  {
    if n > 0 {
      var last := n - 1;
      OpenIff(cfg, run, last);
      AnnouncingStores(cfg, run, last);
      forall m: nat | OpenSince(cfg, run, m, n) && m != last ensures Before(cfg, run, n) == Announced(cfg, run, m) {
        assert OpenSince(cfg, run, m, last);
        PassStep(cfg, run, m, last);
      }
      if Before(cfg, run, n).Some? {
        OpenStep(cfg, run, last, n);
      }
    }
  }

  lemma OpenStep(cfg: Config, run: seq<Evaluation>, last: nat, n: nat)
    requires n == last + 1 <= |run| && Before(cfg, run, n).Some?
    requires Before(cfg, run, last).Some? ==> exists m: nat :: OpenSince(cfg, run, m, last)
    requires forall m: nat :: OpenSince(cfg, run, m, last) ==> Before(cfg, run, last) == Announced(cfg, run, m)
    ensures exists m: nat :: OpenSince(cfg, run, m, n)
  {
    AnnouncingStores(cfg, run, last);
    if Emitted(cfg, run, last) == Quiet {
      var m: nat :| OpenSince(cfg, run, m, last);
      PassStep(cfg, run, m, last);
      assert OpenSince(cfg, run, m, n);
    } else {
      assert OpenSince(cfg, run, last, n);
    }
  }

  /** Evaluation n finds the episode announced at m alive. */
  ghost predicate Ongoing(cfg: Config, run: seq<Evaluation>, m: nat, n: nat) {
    n < |run| && OpenSince(cfg, run, m, n) && !ExpiredSince(cfg, run, m, n)
  }

  /**
   The event of every evaluation, from the events before it: with a live episode a colliding
   event when touching and due, nothing when touching and not due, an end when not touching;
   without one a start when touching; and nothing at all outside the rectangle.
   */
  lemma EventIff(cfg: Config, run: seq<Evaluation>, n: nat)
    requires n < |run|
    ensures !MayCollide(run[n]) ==> Emitted(cfg, run, n) == Quiet
    ensures MayCollide(run[n]) && (forall m: nat :: !Ongoing(cfg, run, m, n)) ==>
              Emitted(cfg, run, n) == if Touching(run[n]) then Start(run[n].at) else Quiet
    ensures forall m: nat :: MayCollide(run[n]) && Ongoing(cfg, run, m, n) ==>
              Emitted(cfg, run, n) ==
              var start := Emitted(cfg, run, m).startTime;
              if !Touching(run[n]) then End(start) else if Due(cfg, run, m, n) then Colliding(start) else Quiet
  {
    OpenIff(cfg, run, n);
    if Active(Before(cfg, run, n), run[n].at) {
      var m: nat :| OpenSince(cfg, run, m, n);
      assert Ongoing(cfg, run, m, n);
    }
  }

  // ---------------------------------------------------------------------------
  // The engine's table
  // ---------------------------------------------------------------------------

  datatype CollisionEvent = CollisionEvent(pair: string, outcome: Outcome, at: Time)

  class CollisionTable {
    const cfg: Config
    var states: map<string, Expiring<Episode>>
    var events: seq<CollisionEvent>

    constructor (cfg: Config)
      ensures this.cfg == cfg && states == map[] && events == []
    {
      this.cfg, states, events := cfg, map[], [];
    }

    function Stored(key: string): PairState
      reads this
    {
      if key in states then Some(states[key]) else None
    }

    /** One candidate pair: decide, store or delete, and emit. */
    method EvaluatePair(key: string, e: Evaluation)
      modifies this
      ensures var (st, o) := Evaluate(cfg, old(Stored(key)), e);
              && Stored(key) == st
              && (forall k :: k != key ==> Stored(k) == old(Stored(k)))
              && events == old(events) + if o == Quiet then [] else [CollisionEvent(key, o, e.at)]
    {
      if !MayCollide(e) {
        states := states - {key};
        return;
      }
      var existing := None;
      if key in states && states[key].expiresAt > e.at {
        existing := Some(states[key].value);
      } else {
        states := states - {key};
      }
      if !Touching(e) {
        if existing.Some? {
          events := events + [CollisionEvent(key, End(existing.value.startTime), e.at)];
        }
        states := states - {key};
        return;
      }
      if existing.None? {
        states := states[key := Expiring(Episode(e.at, e.at), e.at + cfg.ttl)];
        events := events + [CollisionEvent(key, Start(e.at), e.at)];
        return;
      }
      if cfg.debounce > 0 && e.at - existing.value.lastEmitted < cfg.debounce {
        return;
      }
      states := states[key := Expiring(Episode(existing.value.startTime, e.at), e.at + cfg.ttl)];
      events := events + [CollisionEvent(key, Colliding(existing.value.startTime), e.at)];
    }
  }
}
