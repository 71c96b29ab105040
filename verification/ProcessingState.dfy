/**
 The transient in-memory store: dedup keys, plain expiring tables and fence memberships,
 all swept in the background. Every operation takes the clock reading it is made at.
 */
module ProcessingState {
  import opened Wrappers

  type Time = int

  datatype Expiring<V> = Expiring(value: V, expiresAt: Time)

  /** The tables that share one shape: a value and its expiry. */
  datatype Table = LatestLocation | TrackableLocation | Proximity | Motion | Collision | KalmanTrack

  type Cell = (Table, string)

  /** The two timers of a fence membership; None is the zero time. */
  datatype Timers = Timers(toleranceStartedAt: Option<Time>, exitPendingSince: Option<Time>)

  const NO_TIMERS := Timers(None, None)

  /** A trackable and a fence. */
  type Pair = (string, string)

  // ---------------------------------------------------------------------------
  // One expiring map
  // ---------------------------------------------------------------------------

  predicate Visible<K, V>(m: map<K, Expiring<V>>, k: K, now: Time) {
    k in m && m[k].expiresAt > now
  }

  function LiveMap<K(!new), V>(m: map<K, Expiring<V>>, now: Time): (r: map<K, Expiring<V>>)
    ensures forall k :: k in r <==> Visible(m, k, now)
    ensures forall k :: k in r ==> k in m && r[k] == m[k]
  {
    map k | k in m && m[k].expiresAt > now :: m[k]
  }

  /** Two maps that nobody can tell apart from now on. */
  ghost predicate Alike<K(!new), V>(a: map<K, Expiring<V>>, b: map<K, Expiring<V>>, now: Time) {
    LiveMap(a, now) == LiveMap(b, now)
  }

  lemma AlikeLookup<K(!new), V>(a: map<K, Expiring<V>>, b: map<K, Expiring<V>>, k: K, now: Time)
    requires Alike(a, b, now)
    ensures Visible(a, k, now) <==> Visible(b, k, now)
    ensures Visible(a, k, now) ==> a[k] == b[k]
  {
  }

  lemma AlikeLater<K(!new), V>(a: map<K, Expiring<V>>, b: map<K, Expiring<V>>, now: Time, later: Time)
    requires Alike(a, b, now) && now <= later
    ensures Alike(a, b, later)
  {
  }

  lemma AlikePut<K(!new), V>(a: map<K, Expiring<V>>, b: map<K, Expiring<V>>, k: K, e: Expiring<V>, now: Time)
    requires Alike(a, b, now)
    ensures Alike(a[k := e], b[k := e], now)
  {
  }

  lemma AlikeRemove<K(!new), V>(a: map<K, Expiring<V>>, b: map<K, Expiring<V>>, k: K, now: Time)
    requires Alike(a, b, now)
    ensures Alike(a - {k}, b - {k}, now)
  {
  }

  // ---------------------------------------------------------------------------
  // The store and its operations
  // ---------------------------------------------------------------------------

  datatype Store<V> = Store(
    dedup: map<string, Expiring<()>>,
    cells: map<Cell, Expiring<V>>,
    memberships: map<Pair, Expiring<Timers>>)

  function EmptyStore<V>(): Store<V> {
    Store(map[], map[], map[])
  }

  datatype Op<V> =
    | Deduplicate(key: string, ttl: Time)
    | Set(cell: Cell, value: V, ttl: Time)
    | Get(cell: Cell)
    | Delete(cell: Cell)
    | List(table: Table)
    | SetInside(pair: Pair, ttl: Time)
    | ListInside(trackable: string)
    | MembershipState(pair: Pair)
    | UpdateMembership(pair: Pair, update: Timers -> Timers, ttl: Time)
    | ClearInside(pair: Pair)
    | Sweep

  datatype Result<V> =
    | Done
    | Accepted(isNew: bool)
    | Found(item: Option<V>)
    | Listed(items: map<Cell, Expiring<V>>)
    | Inside(pairs: map<Pair, Expiring<Timers>>)
    | State(membership: Option<Timers>)

  function Lookup<K, V>(m: map<K, Expiring<V>>, k: K, now: Time): Option<V> {
    if Visible(m, k, now) then Some(m[k].value) else None
  }

  function InTable<V>(m: map<Cell, Expiring<V>>, t: Table): map<Cell, Expiring<V>> {
    map c | c in m && c.0 == t :: m[c]
  }

  function OfTrackable(m: map<Pair, Expiring<Timers>>, t: string): map<Pair, Expiring<Timers>> {
    map p | p in m && p.0 == t :: m[p]
  }

  /** The answer of an operation: an entry counts exactly while its expiry is after now. */
  function Answer<V>(s: Store<V>, op: Op<V>, now: Time): Result<V> {
    match op
    case Deduplicate(k, _) => Accepted(!Visible(s.dedup, k, now))
    case Get(c) => Found(Lookup(s.cells, c, now))
    case List(t) => Listed(InTable(LiveMap(s.cells, now), t))
    case ListInside(t) => Inside(OfTrackable(LiveMap(s.memberships, now), t))
    case MembershipState(p) => State(Lookup(s.memberships, p, now))
    case _ => Done
  }

  function IdealDedup<V>(m: map<string, Expiring<()>>, op: Op<V>, now: Time): map<string, Expiring<()>> {
    match op
    case Deduplicate(k, ttl) => if Visible(m, k, now) then m else m[k := Expiring((), now + ttl)]
    case _ => m
  }

  function IdealCells<V>(m: map<Cell, Expiring<V>>, op: Op<V>, now: Time): map<Cell, Expiring<V>> {
    match op
    case Set(c, v, ttl) => m[c := Expiring(v, now + ttl)]
    case Delete(c) => m - {c}
    case _ => m
  }

  /** The timers an update is entitled to see: those of a live membership. */
  function SeenTimers(m: map<Pair, Expiring<Timers>>, p: Pair, now: Time): Timers {
    if Visible(m, p, now) then m[p].value else NO_TIMERS
  }

  /** The timers an update is really handed: whatever is stored, expired or not. */
  function StoredTimers(m: map<Pair, Expiring<Timers>>, p: Pair): Timers {
    if p in m then m[p].value else NO_TIMERS
  }

  function IdealMemberships<V>(m: map<Pair, Expiring<Timers>>, op: Op<V>, now: Time): map<Pair, Expiring<Timers>> {
    match op
    case SetInside(p, ttl) => m[p := Expiring(NO_TIMERS, now + ttl)]
    case UpdateMembership(p, update, ttl) => m[p := Expiring(update(SeenTimers(m, p, now)), now + ttl)]
    case ClearInside(p) => m - {p}
    case _ => m
  }

  /** The ideal store only records writes; nothing in it is ever swept, and nothing expired is ever looked at. */
  function Ideal<V>(s: Store<V>, op: Op<V>, now: Time): Store<V> {
    Store(IdealDedup(s.dedup, op, now), IdealCells(s.cells, op, now), IdealMemberships(s.memberships, op, now))
  }

  /** A read of one key deletes it when it has expired. */
  function LazyDelete<K, V>(m: map<K, Expiring<V>>, k: K, now: Time): map<K, Expiring<V>> {
    if Visible(m, k, now) then m else m - {k}
  }

  /** A listing deletes the expired entries it passes. */
  function PurgeTable<V>(m: map<Cell, Expiring<V>>, t: Table, now: Time): map<Cell, Expiring<V>> {
    map c | c in m && (c.0 != t || m[c].expiresAt > now) :: m[c]
  }

  function PurgeTrackable(m: map<Pair, Expiring<Timers>>, t: string, now: Time): map<Pair, Expiring<Timers>> {
    map p | p in m && (p.0 != t || m[p].expiresAt > now) :: m[p]
  }

  function ActualDedup<V>(m: map<string, Expiring<()>>, op: Op<V>, now: Time): map<string, Expiring<()>> {
    if op.Sweep? then LiveMap(m, now) else IdealDedup(m, op, now)
  }

  function ActualCells<V>(m: map<Cell, Expiring<V>>, op: Op<V>, now: Time): map<Cell, Expiring<V>> {
    match op
    case Get(c) => LazyDelete(m, c, now)
    case List(t) => PurgeTable(m, t, now)
    case Sweep => LiveMap(m, now)
    case _ => IdealCells(m, op, now)
  }

  function ActualMemberships<V>(m: map<Pair, Expiring<Timers>>, op: Op<V>, now: Time): map<Pair, Expiring<Timers>> {
    match op
    case ListInside(t) => PurgeTrackable(m, t, now)
    case MembershipState(p) => LazyDelete(m, p, now)
    case UpdateMembership(p, update, ttl) => m[p := Expiring(update(StoredTimers(m, p)), now + ttl)]
    case Sweep => LiveMap(m, now)
    case _ => IdealMemberships(m, op, now)
  }

  /** The real store: lazy deletes on reads, sweeps that drop expired entries, updates that see them. */
  function Actual<V>(s: Store<V>, op: Op<V>, now: Time): Store<V> {
    Store(ActualDedup(s.dedup, op, now), ActualCells(s.cells, op, now), ActualMemberships(s.memberships, op, now))
  }

  // ---------------------------------------------------------------------------
  // The real store refines the ideal one
  // ---------------------------------------------------------------------------

  predicate ReadsMemberships<V>(op: Op<V>) {
    op.ListInside? || op.MembershipState?
  }

  lemma AlikeAnswers<V>(a: Store<V>, b: Store<V>, op: Op<V>, now: Time)
    requires Alike(a.dedup, b.dedup, now) && Alike(a.cells, b.cells, now)
    requires ReadsMemberships(op) ==> Alike(a.memberships, b.memberships, now)
    ensures Answer(a, op, now) == Answer(b, op, now)
  {
  }

  lemma AlikeLive<K(!new), V>(a: map<K, Expiring<V>>, b: map<K, Expiring<V>>, now: Time)
    requires Alike(a, b, now)
    ensures Alike(LiveMap(a, now), b, now)
  {
  }

  lemma AlikeLazy<K(!new), V>(a: map<K, Expiring<V>>, b: map<K, Expiring<V>>, k: K, now: Time)
    requires Alike(a, b, now)
    ensures Alike(LazyDelete(a, k, now), b, now)
  {
  }

  lemma AlikeList<V>(a: map<Cell, Expiring<V>>, b: map<Cell, Expiring<V>>, t: Table, now: Time)
    requires Alike(a, b, now)
    ensures Alike(PurgeTable(a, t, now), b, now)
  {
  }

  lemma AlikeListInside(a: map<Pair, Expiring<Timers>>, b: map<Pair, Expiring<Timers>>, t: string, now: Time)
    requires Alike(a, b, now)
    ensures Alike(PurgeTrackable(a, t, now), b, now)
  {
  }

  lemma AlikeDedup<V>(a: map<string, Expiring<()>>, b: map<string, Expiring<()>>, op: Op<V>, now: Time)
    requires Alike(a, b, now)
    ensures Alike(ActualDedup(a, op, now), IdealDedup(b, op, now), now)
  {
    if op.Deduplicate? {
      AlikeLookup(a, b, op.key, now);
      AlikePut(a, b, op.key, Expiring((), now + op.ttl), now);
    } else if op.Sweep? {
      AlikeLive(a, b, now);
    }
  }

  lemma AlikeCellReads<V>(a: map<Cell, Expiring<V>>, b: map<Cell, Expiring<V>>, op: Op<V>, now: Time)
    requires Alike(a, b, now) && (op.Get? || op.List? || op.Sweep?)
    ensures Alike(ActualCells(a, op, now), b, now)
  {
    if op.Get? {
      AlikeLazy(a, b, op.cell, now);
    } else if op.List? {
      AlikeList(a, b, op.table, now);
    } else {
      AlikeLive(a, b, now);
    }
  }

  lemma AlikeCells<V>(a: map<Cell, Expiring<V>>, b: map<Cell, Expiring<V>>, op: Op<V>, now: Time)
    requires Alike(a, b, now)
    ensures Alike(ActualCells(a, op, now), IdealCells(b, op, now), now)
  {
    if op.Set? {
      AlikePut(a, b, op.cell, Expiring(op.value, now + op.ttl), now);
    } else if op.Delete? {
      AlikeRemove(a, b, op.cell, now);
    } else if op.Get? || op.List? || op.Sweep? {
      AlikeCellReads(a, b, op, now);
    }
  }

  /** The closure overwrites both timers, whatever they were. */
  ghost predicate Overwrites(update: Timers -> Timers) {
    forall x, y :: update(x) == update(y)
  }

  lemma AlikeUpdate(a: map<Pair, Expiring<Timers>>, b: map<Pair, Expiring<Timers>>, p: Pair, update: Timers -> Timers,
                    ttl: Time, now: Time)
    requires Alike(a, b, now) && Overwrites(update)
    ensures Alike(a[p := Expiring(update(StoredTimers(a, p)), now + ttl)],
                  b[p := Expiring(update(SeenTimers(b, p, now)), now + ttl)], now)
  {
    var x := update(StoredTimers(a, p));
    assert x == update(SeenTimers(b, p, now));
    AlikePut(a, b, p, Expiring(x, now + ttl), now);
  }

  lemma AlikeMembershipReads<V>(a: map<Pair, Expiring<Timers>>, b: map<Pair, Expiring<Timers>>, op: Op<V>, now: Time)
    requires Alike(a, b, now) && (op.ListInside? || op.MembershipState? || op.Sweep?)
    ensures Alike(ActualMemberships(a, op, now), b, now)
  {
    if op.ListInside? {
      AlikeListInside(a, b, op.trackable, now);
    } else if op.MembershipState? {
      AlikeLazy(a, b, op.pair, now);
    } else {
      AlikeLive(a, b, now);
    }
  }

  lemma AlikeMemberships<V>(a: map<Pair, Expiring<Timers>>, b: map<Pair, Expiring<Timers>>, op: Op<V>, now: Time)
    requires Alike(a, b, now) && (op.UpdateMembership? ==> Overwrites(op.update))
    ensures Alike(ActualMemberships(a, op, now), IdealMemberships(b, op, now), now)
  {
    if op.SetInside? {
      AlikePut(a, b, op.pair, Expiring(NO_TIMERS, now + op.ttl), now);
    } else if op.UpdateMembership? {
      AlikeUpdate(a, b, op.pair, op.update, op.ttl, now);
    } else if op.ClearInside? {
      AlikeRemove(a, b, op.pair, now);
    } else if op.ListInside? || op.MembershipState? || op.Sweep? {
      AlikeMembershipReads(a, b, op, now);
    }
  }

  datatype Call<V> = Call(op: Op<V>, at: Time)

  ghost predicate Chronological<V>(trace: seq<Call<V>>) {
    forall i, j :: 0 <= i < j < |trace| ==> trace[i].at <= trace[j].at
  }

  function ActualAfter<V>(trace: seq<Call<V>>, n: nat): Store<V>
    requires n <= |trace|
  {
    if n == 0 then EmptyStore() else Actual(ActualAfter(trace, n - 1), trace[n - 1].op, trace[n - 1].at)
  }

  function IdealAfter<V>(trace: seq<Call<V>>, n: nat): Store<V>
    requires n <= |trace|
  {
    if n == 0 then EmptyStore() else Ideal(IdealAfter(trace, n - 1), trace[n - 1].op, trace[n - 1].at)
  }

  /** Every update of the run overwrites both timers, as the fence engine's updates do. */
  ghost predicate OverwritesOnly<V>(trace: seq<Call<V>>) {
    forall i :: 0 <= i < |trace| && trace[i].op.UpdateMembership? ==> Overwrites(trace[i].op.update)
  }

  lemma {:induction false} RunsAlike<V>(trace: seq<Call<V>>, n: nat)
    requires Chronological(trace) && n < |trace|
    ensures Alike(ActualAfter(trace, n).dedup, IdealAfter(trace, n).dedup, trace[n].at)
    ensures Alike(ActualAfter(trace, n).cells, IdealAfter(trace, n).cells, trace[n].at)
    decreases n
  {
    if n > 0 {
      RunsAlike(trace, n - 1);
      var a, b, c := ActualAfter(trace, n - 1), IdealAfter(trace, n - 1), trace[n - 1];
      AlikeDedup(a.dedup, b.dedup, c.op, c.at);
      AlikeCells(a.cells, b.cells, c.op, c.at);
      assert c.at <= trace[n].at;
      AlikeLater(ActualDedup(a.dedup, c.op, c.at), IdealDedup(b.dedup, c.op, c.at), c.at, trace[n].at);
      AlikeLater(ActualCells(a.cells, c.op, c.at), IdealCells(b.cells, c.op, c.at), c.at, trace[n].at);
    }
  }

  lemma {:induction false} MembershipsAlike<V>(trace: seq<Call<V>>, n: nat)
    requires Chronological(trace) && n < |trace| && OverwritesOnly(trace)
    ensures Alike(ActualAfter(trace, n).memberships, IdealAfter(trace, n).memberships, trace[n].at)
    decreases n
  {
    if n > 0 {
      MembershipsAlike(trace, n - 1);
      var a, b, c := ActualAfter(trace, n - 1), IdealAfter(trace, n - 1), trace[n - 1];
      AlikeMemberships(a.memberships, b.memberships, c.op, c.at);
      assert c.at <= trace[n].at;
      AlikeLater(ActualMemberships(a.memberships, c.op, c.at),
                 IdealMemberships(b.memberships, c.op, c.at), c.at, trace[n].at);
    }
  }

  /** Every answer in every run is the one the ideal store gives, where memberships are read if updates overwrite. */
  lemma StoreRefinesIdeal<V>(trace: seq<Call<V>>, n: nat)
    requires Chronological(trace) && n < |trace|
    requires ReadsMemberships(trace[n].op) ==> OverwritesOnly(trace)
    ensures Answer(ActualAfter(trace, n), trace[n].op, trace[n].at) ==
            Answer(IdealAfter(trace, n), trace[n].op, trace[n].at)
  {
    RunsAlike(trace, n);
    if ReadsMemberships(trace[n].op) {
      MembershipsAlike(trace, n);
    }
    AlikeAnswers(ActualAfter(trace, n), IdealAfter(trace, n), trace[n].op, trace[n].at);
  }

  // ---------------------------------------------------------------------------
  // The sweeper is invisible
  // ---------------------------------------------------------------------------

  /** The run without its sweeps. */
  function Unswept<V>(trace: seq<Call<V>>, n: nat): (r: seq<Call<V>>)
    requires n <= |trace|
    ensures |r| <= n && forall c :: c in r ==> exists i :: 0 <= i < n && trace[i] == c
  {
    if n == 0 then []
    else if trace[n - 1].op.Sweep? then Unswept(trace, n - 1)
    else Unswept(trace, n - 1) + [trace[n - 1]]
  }

  lemma {:induction false} IdealPrefix<V>(s: seq<Call<V>>, t: seq<Call<V>>, n: nat)
    requires n <= |s| && n <= |t| && s[..n] == t[..n]
    ensures IdealAfter(s, n) == IdealAfter(t, n)
    decreases n
  {
    if n > 0 {
      assert s[..n - 1] == s[..n][..n - 1] && t[..n - 1] == t[..n][..n - 1];
      IdealPrefix(s, t, n - 1);
      assert s[n - 1] == s[..n][n - 1] == t[..n][n - 1] == t[n - 1];
    }
  }

  lemma {:induction false} IdealIgnoresSweeps<V>(trace: seq<Call<V>>, n: nat)
    requires n <= |trace|
    ensures IdealAfter(trace, n) == IdealAfter(Unswept(trace, n), |Unswept(trace, n)|)
    decreases n
  {
    if n > 0 {
      IdealIgnoresSweeps(trace, n - 1);
      var shorter, longer := Unswept(trace, n - 1), Unswept(trace, n);
      if !trace[n - 1].op.Sweep? {
        assert longer[..|shorter|] == shorter[..|shorter|];
        IdealPrefix(longer, shorter, |shorter|);
      }
    }
  }

  lemma {:induction false} UnsweptChronological<V>(trace: seq<Call<V>>, n: nat)
    requires Chronological(trace) && n <= |trace|
    ensures Chronological(Unswept(trace, n))
    decreases n
  {
    if n > 0 {
      UnsweptChronological(trace, n - 1);
      var shorter := Unswept(trace, n - 1);
      forall i | 0 <= i < |shorter| ensures shorter[i].at <= trace[n - 1].at {
        assert shorter[i] in shorter;
      }
    }
  }

  /** Call n answers the same whether the sweeps before it happened or not. */
  ghost predicate SweepsUnseen<V>(trace: seq<Call<V>>, n: nat)
    requires n < |trace|
  {
    var plain := Unswept(trace, n);
    Answer(ActualAfter(trace, n), trace[n].op, trace[n].at) ==
    Answer(ActualAfter(plain, |plain|), trace[n].op, trace[n].at)
  }

  lemma UnsweptOverwrites<V>(trace: seq<Call<V>>, n: nat)
    requires n <= |trace| && OverwritesOnly(trace)
    ensures OverwritesOnly(Unswept(trace, n))
  {
    var plain := Unswept(trace, n);
    forall i | 0 <= i < |plain| && plain[i].op.UpdateMembership? ensures Overwrites(plain[i].op.update) {
      assert plain[i] in plain;
    }
  }

  /** The sweeper is invisible to every call; to reads of memberships if updates overwrite. */
  lemma SweepInvisible<V>(trace: seq<Call<V>>, n: nat)
    requires Chronological(trace) && n < |trace| && !trace[n].op.Sweep?
    requires ReadsMemberships(trace[n].op) ==> OverwritesOnly(trace)
    ensures SweepsUnseen(trace, n)
  {
    var plain := Unswept(trace, n);
    var whole := Unswept(trace, n + 1);
    assert whole == plain + [trace[n]];
    UnsweptChronological(trace, n + 1);
    if OverwritesOnly(trace) {
      UnsweptOverwrites(trace, n + 1);
    }
    StoreRefinesIdeal(trace, n);
    StoreRefinesIdeal(whole, |plain|);
    IdealIgnoresSweeps(trace, n);
    assert whole[..|plain|] == plain[..|plain|];
    IdealPrefix(whole, plain, |plain|);
    ActualPrefix(whole, plain, |plain|);
  }

  lemma {:induction false} ActualPrefix<V>(s: seq<Call<V>>, t: seq<Call<V>>, n: nat)
    requires n <= |s| && n <= |t| && s[..n] == t[..n]
    ensures ActualAfter(s, n) == ActualAfter(t, n)
    decreases n
  {
    if n > 0 {
      assert s[..n - 1] == s[..n][..n - 1] && t[..n - 1] == t[..n][..n - 1];
      ActualPrefix(s, t, n - 1);
      assert s[n - 1] == s[..n][n - 1] == t[..n][n - 1] == t[n - 1];
    }
  }

  // ---------------------------------------------------------------------------
  // Which updates a sweep shows through
  // ---------------------------------------------------------------------------

  lemma PutsAlikeIff(a: map<Pair, Expiring<Timers>>, b: map<Pair, Expiring<Timers>>, p: Pair, x: Timers, y: Timers,
                     expiresAt: Time, now: Time)
    requires Alike(a, b, now) && expiresAt > now
    ensures Alike(a[p := Expiring(x, expiresAt)], b[p := Expiring(y, expiresAt)], now) <==> x == y
  {
    if x == y {
      AlikePut(a, b, p, Expiring(x, expiresAt), now);
    } else if Alike(a[p := Expiring(x, expiresAt)], b[p := Expiring(y, expiresAt)], now) {
      AlikeLookup(a[p := Expiring(x, expiresAt)], b[p := Expiring(y, expiresAt)], p, now);
    }
  }

  /**
   On any store, a sweep just before a lasting update shows exactly when it takes away
   expired timers that the closure depends on.
   */
  lemma SweepShowsIff<V>(s: Store<V>, p: Pair, update: Timers -> Timers, ttl: Time, now: Time)
    requires ttl > 0
    ensures var op := Op<V>.UpdateMembership(p, update, ttl);
            Alike(Actual(Actual(s, Sweep, now), op, now).memberships, Actual(s, op, now).memberships, now) <==>
            (p in s.memberships && s.memberships[p].expiresAt <= now ==>
               update(s.memberships[p].value) == update(NO_TIMERS))
  {
    var m := s.memberships;
    AlikeLive(m, m, now);
    PutsAlikeIff(LiveMap(m, now), m, p, update(StoredTimers(LiveMap(m, now), p)),
                 update(StoredTimers(m, p)), now + ttl, now);
  }

  /** Every update of the run overwrites both timers or is the given closure. */
  ghost predicate UpdatesWith<V>(trace: seq<Call<V>>, update: Timers -> Timers) {
    forall i :: 0 <= i < |trace| && trace[i].op.UpdateMembership? ==>
      Overwrites(trace[i].op.update) || trace[i].op.update == update
  }

  /** In no run that uses the closure can a sweep be noticed. */
  ghost predicate SweepsNeverShow(update: Timers -> Timers) {
    forall trace: seq<Call<()>>, n: nat ::
      n < |trace| && Chronological(trace) && UpdatesWith(trace, update) && !trace[n].op.Sweep? ==>
        SweepsUnseen(trace, n)
  }

  /** Timers are stored, expire, are swept or not, and are then updated and read. */
  function ShowingRun(x: Timers, update: Timers -> Timers): seq<Call<()>> {
    var p: Pair := ("", "");
    [Call(Op.UpdateMembership(p, (t: Timers) => x, 1), 0), Call(Sweep, 1),
     Call(Op.UpdateMembership(p, update, 1), 1), Call(Op.MembershipState(p), 1)]
  }

  lemma ShowingUnswept(x: Timers, update: Timers -> Timers)
    ensures var run := ShowingRun(x, update); Unswept(run, 3) == [run[0], run[2]]
  {
    var run := ShowingRun(x, update);
    assert Unswept(run, 0) == [];
    assert Unswept(run, 1) == [run[0]];
    assert Unswept(run, 2) == [run[0]];
  }

  /** With the sweep the closure starts from nothing ... */
  lemma ShownSwept(x: Timers, update: Timers -> Timers)
    ensures Lookup(ActualAfter(ShowingRun(x, update), 3).memberships, ("", ""), 1) == Some(update(NO_TIMERS))
  {
    var run, p: Pair := ShowingRun(x, update), ("", "");
    assert ActualAfter(run, 1).memberships == map[p := Expiring(x, 1)];
    assert ActualAfter(run, 2).memberships == map[];
  }

  /** ... and without it from what has expired. */
  lemma ShownUnswept(x: Timers, update: Timers -> Timers)
    ensures var run := ShowingRun(x, update);
            Lookup(ActualAfter([run[0], run[2]], 2).memberships, ("", ""), 1) == Some(update(x))
  {
    var run, p: Pair := ShowingRun(x, update), ("", "");
    var plain := [run[0], run[2]];
    assert ActualAfter(plain, 1).memberships == map[p := Expiring(x, 1)];
  }

  lemma SweepShows(x: Timers, update: Timers -> Timers)
    ensures var run := ShowingRun(x, update);
            && Chronological(run) && UpdatesWith(run, update)
            && (SweepsUnseen(run, 3) <==> update(x) == update(NO_TIMERS))
  {
    ShownSwept(x, update);
    ShownUnswept(x, update);
    ShowingUnswept(x, update);
  }

  /** Sweeps stay invisible in every run that uses a closure if and only if the closure overwrites both timers. */
  lemma UpdateInvisibleIff(update: Timers -> Timers)
    ensures SweepsNeverShow(update) <==> Overwrites(update)
  {
    if Overwrites(update) {
      forall trace: seq<Call<()>>, n: nat
        | n < |trace| && Chronological(trace) && UpdatesWith(trace, update) && !trace[n].op.Sweep?
        ensures SweepsUnseen(trace, n)
      {
        SweepInvisible(trace, n);
      }
    }
    if SweepsNeverShow(update) {
      forall x, y ensures update(x) == update(y) {
        SweepShows(x, update);
        SweepShows(y, update);
        assert SweepsUnseen(ShowingRun(x, update), 3) && SweepsUnseen(ShowingRun(y, update), 3);
      }
    }
  }

  /**
   A closure that restarts only the exit countdown, and a run in which it lets an expired
   tolerance through unless swept.
   */
  lemma PartialUpdateShows()
    ensures var restart := (t: Timers) => t.(exitPendingSince := Some(1));
            var run := ShowingRun(Timers(Some(0), None), restart);
            && !Overwrites(restart) && Chronological(run) && UpdatesWith(run, restart) && !SweepsUnseen(run, 3)
  {
    var restart := (t: Timers) => t.(exitPendingSince := Some(1));
    var x := Timers(Some(0), None);
    assert restart(x) != restart(NO_TIMERS);
    SweepShows(x, restart);
  }

  // ---------------------------------------------------------------------------
  // Deduplication over whole runs
  // ---------------------------------------------------------------------------

  /** Call i asked for key k and was accepted. */
  ghost predicate AcceptedAt<V>(trace: seq<Call<V>>, i: nat, k: string) {
    && i < |trace| && trace[i].op.Deduplicate? && trace[i].op.key == k
    && !Visible(IdealAfter(trace, i).dedup, k, trace[i].at)
  }

  /** The stored expiry of a key is that of its last accepted call. */
  lemma {:induction false} DedupHistory<V>(trace: seq<Call<V>>, n: nat, k: string) returns (i: nat)
    requires n <= |trace|
    ensures k in IdealAfter(trace, n).dedup ==>
              && i < n && AcceptedAt(trace, i, k)
              && IdealAfter(trace, n).dedup[k].expiresAt == trace[i].at + trace[i].op.ttl
              && forall j :: i < j < n ==> !AcceptedAt(trace, j, k)
    ensures k !in IdealAfter(trace, n).dedup ==> forall j :: 0 <= j < n ==> !AcceptedAt(trace, j, k)
    decreases n
  {
    i := 0;
    if n > 0 {
      i := DedupHistory(trace, n - 1, k);
      if AcceptedAt(trace, n - 1, k) {
        i := n - 1;
      }
    }
  }

  lemma {:induction false} IdealAcceptedApart<V>(trace: seq<Call<V>>, i: nat, j: nat, k: string)
    requires Chronological(trace) && i < j && AcceptedAt(trace, i, k) && AcceptedAt(trace, j, k)
    ensures trace[j].at >= trace[i].at + trace[i].op.ttl
    decreases j
  {
    var last := DedupHistory(trace, j, k);
    if last != i {
      IdealAcceptedApart(trace, i, last, k);
    }
  }

  /** Calls for one key that the store accepts are at least the earlier call's time-to-live apart. */
  lemma AcceptedApart<V>(trace: seq<Call<V>>, i: nat, j: nat)
    requires Chronological(trace) && i < j < |trace| && trace[i].op.Deduplicate? && trace[j].op.Deduplicate?
    requires trace[i].op.key == trace[j].op.key
    requires Answer(ActualAfter(trace, i), trace[i].op, trace[i].at) == Accepted(true)
    requires Answer(ActualAfter(trace, j), trace[j].op, trace[j].at) == Accepted(true)
    ensures trace[j].at >= trace[i].at + trace[i].op.ttl
  {
    StoreRefinesIdeal(trace, i);
    StoreRefinesIdeal(trace, j);
    IdealAcceptedApart(trace, i, j, trace[i].op.key);
  }

  /** A refused call has an accepted one for the same key that has not expired yet. */
  lemma RefusedHasWitness<V>(trace: seq<Call<V>>, n: nat) returns (i: nat)
    requires Chronological(trace) && n < |trace| && trace[n].op.Deduplicate?
    requires Answer(ActualAfter(trace, n), trace[n].op, trace[n].at) == Accepted(false)
    ensures i < n && AcceptedAt(trace, i, trace[n].op.key)
    ensures Answer(ActualAfter(trace, i), trace[i].op, trace[i].at) == Accepted(true)
    ensures trace[n].at < trace[i].at + trace[i].op.ttl
  {
    StoreRefinesIdeal(trace, n);
    i := DedupHistory(trace, n, trace[n].op.key);
    StoreRefinesIdeal(trace, i);
  }

  // ---------------------------------------------------------------------------
  // The store as the code keeps it
  // ---------------------------------------------------------------------------

  /** One sweep loop: walk the keys and delete what has expired. */
  method SweepMap<K(==, !new), V>(m: map<K, Expiring<V>>, now: Time) returns (r: map<K, Expiring<V>>)
    ensures r == LiveMap(m, now)
  {
    r := m;
    var todo := m.Keys;
    while todo != {}
      invariant todo <= m.Keys
      invariant forall k :: k in r ==> k in m && r[k] == m[k]
      invariant forall k :: k in m ==> (k in r <==> k in todo || m[k].expiresAt > now)
      decreases todo
    {
      var k :| k in todo;
      if !(m[k].expiresAt > now) {
        r := r - {k};
      }
      todo := todo - {k};
    }
  }

  /** One listing loop: collect the live entries of a table and delete its expired ones. */
  method ListTable<V>(m: map<Cell, Expiring<V>>, table: Table, now: Time)
    returns (kept: map<Cell, Expiring<V>>, items: map<Cell, Expiring<V>>)
    ensures kept == PurgeTable(m, table, now)
    ensures items == InTable(LiveMap(m, now), table)
  {
    kept, items := m, map[];
    var todo := m.Keys;
    while todo != {}
      invariant todo <= m.Keys
      invariant forall c :: c in kept ==> c in m && kept[c] == m[c]
      invariant forall c :: c in m ==> (c in kept <==> c in todo || c.0 != table || m[c].expiresAt > now)
      invariant forall c :: c in items ==> c in m && items[c] == m[c]
      invariant forall c :: c in m ==> (c in items <==> c !in todo && c.0 == table && m[c].expiresAt > now)
      decreases todo
    {
      var c :| c in todo;
      if c.0 == table {
        if !(m[c].expiresAt > now) {
          kept := kept - {c};
        } else {
          items := items[c := m[c]];
        }
      }
      todo := todo - {c};
    }
  }

  /** The same loop over the memberships of one trackable. */
  method ListMemberships(m: map<Pair, Expiring<Timers>>, trackable: string, now: Time)
    returns (kept: map<Pair, Expiring<Timers>>, pairs: map<Pair, Expiring<Timers>>)
    ensures kept == PurgeTrackable(m, trackable, now)
    ensures pairs == OfTrackable(LiveMap(m, now), trackable)
  {
    kept, pairs := m, map[];
    var todo := m.Keys;
    while todo != {}
      invariant todo <= m.Keys
      invariant forall p :: p in kept ==> p in m && kept[p] == m[p]
      invariant forall p :: p in m ==> (p in kept <==> p in todo || p.0 != trackable || m[p].expiresAt > now)
      invariant forall p :: p in pairs ==> p in m && pairs[p] == m[p]
      invariant forall p :: p in m ==> (p in pairs <==> p !in todo && p.0 == trackable && m[p].expiresAt > now)
      decreases todo
    {
      var p :| p in todo;
      if p.0 == trackable {
        if !(m[p].expiresAt > now) {
          kept := kept - {p};
        } else {
          pairs := pairs[p := m[p]];
        }
      }
      todo := todo - {p};
    }
  }

  class TransientStore<V(==)> {
    var dedup: map<string, Expiring<()>>
    var cells: map<Cell, Expiring<V>>
    var memberships: map<Pair, Expiring<Timers>>

    ghost function Model(): Store<V>
      reads this
    {
      Store(dedup, cells, memberships)
    }

    constructor ()
      ensures Model() == EmptyStore()
    {
      dedup, cells, memberships := map[], map[], map[];
    }

    method Deduplicate(key: string, ttl: Time, now: Time) returns (isNew: bool)
      modifies this
      ensures Accepted(isNew) == Answer(old(Model()), Op.Deduplicate(key, ttl), now)
      ensures Model() == Actual(old(Model()), Op.Deduplicate(key, ttl), now)
    {
      if key in dedup && dedup[key].expiresAt > now {
        return false;
      }
      dedup := dedup[key := Expiring((), now + ttl)];
      return true;
    }

    method Set(cell: Cell, value: V, ttl: Time, now: Time)
      modifies this
      ensures Model() == Actual(old(Model()), Op.Set(cell, value, ttl), now)
    {
      cells := cells[cell := Expiring(value, now + ttl)];
    }

    method Get(cell: Cell, now: Time) returns (item: Option<V>)
      modifies this
      ensures Found(item) == Answer(old(Model()), Op.Get(cell), now)
      ensures Model() == Actual(old(Model()), Op.Get(cell), now)
    {
      if cell !in cells || !(cells[cell].expiresAt > now) {
        cells := cells - {cell};
        return None;
      }
      return Some(cells[cell].value);
    }

    method Delete(cell: Cell, now: Time)
      modifies this
      ensures Model() == Actual(old(Model()), Op.Delete(cell), now)
    {
      cells := cells - {cell};
    }

    method List(table: Table, now: Time) returns (items: map<Cell, Expiring<V>>)
      modifies this
      ensures Listed(items) == Answer(old(Model()), Op.List(table), now)
      ensures Model() == Actual(old(Model()), Op.List(table), now)
    {
      cells, items := ListTable(cells, table, now);
    }

    method SetInside(pair: Pair, ttl: Time, now: Time)
      modifies this
      ensures Model() == Actual(old(Model()), Op.SetInside(pair, ttl), now)
    {
      memberships := memberships[pair := Expiring(NO_TIMERS, now + ttl)];
    }

    method ListInside(trackable: string, now: Time) returns (pairs: map<Pair, Expiring<Timers>>)
      modifies this
      ensures Inside(pairs) == Answer(old(Model()), Op.ListInside(trackable), now)
      ensures Model() == Actual(old(Model()), Op.ListInside(trackable), now)
    {
      memberships, pairs := ListMemberships(memberships, trackable, now);
    }

    method MembershipState(pair: Pair, now: Time) returns (timers: Option<Timers>)
      modifies this
      ensures State(timers) == Answer(old(Model()), Op.MembershipState(pair), now)
      ensures Model() == Actual(old(Model()), Op.MembershipState(pair), now)
    {
      if pair !in memberships || !(memberships[pair].expiresAt > now) {
        memberships := memberships - {pair};
        return None;
      }
      return Some(memberships[pair].value);
    }

    /** The stored timers are handed to the closure even when they have expired. */
    method UpdateMembership(pair: Pair, ttl: Time, update: Timers -> Timers, now: Time)
      modifies this
      ensures Model() == Actual(old(Model()), Op.UpdateMembership(pair, update, ttl), now)
    {
      var timers := if pair in memberships then memberships[pair].value else NO_TIMERS;
      memberships := memberships[pair := Expiring(update(timers), now + ttl)];
    }

    method ClearInside(pair: Pair, now: Time)
      modifies this
      ensures Model() == Actual(old(Model()), Op.ClearInside(pair), now)
    {
      memberships := memberships - {pair};
    }

    method SweepExpired(now: Time)
      modifies this
      ensures Model() == Actual(old(Model()), Sweep, now)
    {
      dedup := SweepMap(dedup, now);
      cells := SweepMap(cells, now);
      memberships := SweepMap(memberships, now);
    }
  }
}
