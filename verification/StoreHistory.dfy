/**
 What the expiring store answers, told from the calls made to it: a read gives what the last
 write put there, exactly while that write's own time-to-live lasts, whatever was swept,
 lazily deleted or listed in between.
 */
module StoreHistory {
  import opened Wrappers
  import opened ProcessingState

  // ---------------------------------------------------------------------------
  // Cells
  // ---------------------------------------------------------------------------

  predicate TouchesCell<V>(op: Op<V>, c: Cell) {
    (op.Set? && op.cell == c) || (op.Delete? && op.cell == c)
  }

  /** Call i set the cell, and no call between i and n set or deleted it. */
  ghost predicate SetBy<V>(trace: seq<Call<V>>, n: nat, i: nat, c: Cell) {
    && i < n <= |trace| && trace[i].op.Set? && trace[i].op.cell == c
    && forall j :: i < j < n ==> !TouchesCell(trace[j].op, c)
  }

  lemma {:induction false} IdealCellHistory<V>(trace: seq<Call<V>>, n: nat, c: Cell)
    requires n <= |trace|
    ensures c in IdealAfter(trace, n).cells ==> exists i: nat :: SetBy(trace, n, i, c)
    ensures forall i: nat :: SetBy(trace, n, i, c) ==>
              c in IdealAfter(trace, n).cells &&
              IdealAfter(trace, n).cells[c] == Expiring(trace[i].op.value, trace[i].at + trace[i].op.ttl)
    decreases n
  {
    if n > 0 {
      var last := n - 1;
      IdealCellHistory(trace, last, c);
      forall i: nat | SetBy(trace, n, i, c) && i != last
        ensures SetBy(trace, last, i, c) && !TouchesCell(trace[last].op, c)
      {
      }
      if c in IdealAfter(trace, n).cells {
        if TouchesCell(trace[last].op, c) {
          assert SetBy(trace, n, last, c);
        } else {
          var i: nat :| SetBy(trace, last, i, c);
          assert SetBy(trace, n, i, c);
        }
      }
    }
  }

  /** Call i gave the cell the value it has at call n, and its time-to-live reaches past call n. */
  ghost predicate CellLives<V>(trace: seq<Call<V>>, n: nat, i: nat, c: Cell, e: Expiring<V>) {
    && n < |trace| && SetBy(trace, n, i, c)
    && e == Expiring(trace[i].op.value, trace[i].at + trace[i].op.ttl) && trace[n].at < e.expiresAt
  }

  lemma CellIff<V>(trace: seq<Call<V>>, n: nat, c: Cell, e: Expiring<V>)
    requires Chronological(trace) && n < |trace|
    ensures var m := IdealAfter(trace, n).cells;
            (Visible(m, c, trace[n].at) && m[c] == e) <==> exists i: nat :: CellLives(trace, n, i, c, e)
  {
    IdealCellHistory(trace, n, c);
    var m := IdealAfter(trace, n).cells;
    if Visible(m, c, trace[n].at) && m[c] == e {
      var i: nat :| SetBy(trace, n, i, c);
      assert CellLives(trace, n, i, c, e);
    }
  }

  /**
   In every chronological run, a get returns a value exactly if some earlier call set the cell
   to it with a time-to-live that reaches past the get, and no set or delete of it lies between.
   */
  lemma GetIff<V>(trace: seq<Call<V>>, n: nat, v: V)
    requires Chronological(trace) && n < |trace| && trace[n].op.Get?
    ensures Answer(ActualAfter(trace, n), trace[n].op, trace[n].at) == Found(Some(v)) <==>
            exists i: nat :: SetBy(trace, n, i, trace[n].op.cell) && trace[i].op.value == v &&
                             trace[n].at < trace[i].at + trace[i].op.ttl
  {
    var c, now := trace[n].op.cell, trace[n].at;
    StoreRefinesIdeal(trace, n);
    IdealCellHistory(trace, n, c);
    if Visible(IdealAfter(trace, n).cells, c, now) {
      var i: nat :| SetBy(trace, n, i, c);
    }
  }

  /** A listing holds exactly the cells of its table that a get would find, with their expiries. */
  lemma ListIff<V>(trace: seq<Call<V>>, n: nat, c: Cell, e: Expiring<V>)
    requires Chronological(trace) && n < |trace| && trace[n].op.List?
    ensures var r := Answer(ActualAfter(trace, n), trace[n].op, trace[n].at);
            && r.Listed?
            && ((c in r.items && r.items[c] == e) <==>
                c.0 == trace[n].op.table && exists i: nat :: CellLives(trace, n, i, c, e))
  {
    StoreRefinesIdeal(trace, n);
    CellIff(trace, n, c, e);
  }

  // ---------------------------------------------------------------------------
  // Memberships, with updates of any kind
  // ---------------------------------------------------------------------------

  predicate WritesPair<V>(op: Op<V>, p: Pair) {
    (op.SetInside? && op.pair == p) || (op.UpdateMembership? && op.pair == p)
  }

  predicate TouchesPair<V>(op: Op<V>, p: Pair) {
    WritesPair(op, p) || (op.ClearInside? && op.pair == p)
  }

  /** Call i wrote the membership, and no call between i and n wrote or cleared it. */
  ghost predicate WrittenBy<V>(trace: seq<Call<V>>, n: nat, i: nat, p: Pair) {
    && i < n <= |trace| && WritesPair(trace[i].op, p)
    && forall j :: i < j < n ==> !TouchesPair(trace[j].op, p)
  }

  /** The membership that call i writes: without timers when set, with what the closure makes of the old ones else. */
  function Written<V>(trace: seq<Call<V>>, i: nat, p: Pair): Expiring<Timers>
    requires i < |trace| && WritesPair(trace[i].op, p)
  {
    var op := trace[i].op;
    var timers :=
      if op.SetInside? then NO_TIMERS else op.update(StoredTimers(ActualAfter(trace, i).memberships, p));
    Expiring(timers, trace[i].at + op.ttl)
  }

  /** Call i wrote the membership of call n, and its time-to-live reaches past call n. */
  ghost predicate MembershipLives<V>(trace: seq<Call<V>>, n: nat, i: nat, p: Pair, e: Expiring<Timers>) {
    n < |trace| && WrittenBy(trace, n, i, p) && e == Written(trace, i, p) && trace[n].at < e.expiresAt
  }

  /** One call writes the pair, clears it, or keeps it while it lives; an entry never comes from nowhere. */
  lemma PairStep<V>(m: map<Pair, Expiring<Timers>>, op: Op<V>, p: Pair, now: Time)
    ensures var m' := ActualMemberships(m, op, now);
            && (op.ClearInside? && op.pair == p ==> p !in m')
            && (!TouchesPair(op, p) && Visible(m, p, now) ==> p in m' && m'[p] == m[p])
            && (!TouchesPair(op, p) && p in m' ==> p in m && m'[p] == m[p])
  {
  }

  lemma WriteStep<V>(trace: seq<Call<V>>, i: nat, p: Pair)
    requires i < |trace| && WritesPair(trace[i].op, p)
    ensures var m := ActualAfter(trace, i + 1).memberships; p in m && m[p] == Written(trace, i, p)
  {
  }

  /** The membership e of pair p is visible at call n. */
  ghost predicate Shows<V>(trace: seq<Call<V>>, n: nat, p: Pair, e: Expiring<Timers>) {
    && n < |trace| && p in ActualAfter(trace, n).memberships
    && ActualAfter(trace, n).memberships[p] == e && trace[n].at < e.expiresAt
  }

  /** A membership visible after one more call was written by that call, or visible before it and not touched. */
  lemma ShowsStep<V>(trace: seq<Call<V>>, last: nat, n: nat, p: Pair, e: Expiring<Timers>)
    requires n == last + 1 < |trace| && trace[last].at <= trace[n].at < e.expiresAt
    ensures WritesPair(trace[last].op, p) ==> (Shows(trace, n, p, e) <==> e == Written(trace, last, p))
    ensures !WritesPair(trace[last].op, p) ==>
              (Shows(trace, n, p, e) <==> Shows(trace, last, p, e) && !TouchesPair(trace[last].op, p))
  {
    PairStep(ActualAfter(trace, last).memberships, trace[last].op, p, trace[last].at);
    if WritesPair(trace[last].op, p) {
      WriteStep(trace, last, p);
    }
  }

  lemma LivesStep<V>(trace: seq<Call<V>>, last: nat, n: nat, i: nat, p: Pair, e: Expiring<Timers>)
    requires n == last + 1 < |trace| && trace[last].at <= trace[n].at < e.expiresAt
    ensures MembershipLives(trace, n, i, p, e) <==>
            if i == last then WritesPair(trace[last].op, p) && e == Written(trace, last, p)
            else MembershipLives(trace, last, i, p, e) && !TouchesPair(trace[last].op, p)
  {
  }

  /** A membership is visible exactly if some call wrote it, its time-to-live lasts, and none touched it since. */
  lemma {:induction false} MembershipHistory<V>(trace: seq<Call<V>>, n: nat, p: Pair, e: Expiring<Timers>)
    requires Chronological(trace) && n < |trace|
    ensures Shows(trace, n, p, e) <==> exists i: nat :: MembershipLives(trace, n, i, p, e)
    decreases n
  {
    if n > 0 && trace[n].at < e.expiresAt {
      var last := n - 1;
      assert trace[last].at <= trace[n].at;
      MembershipHistory(trace, last, p, e);
      ShowsStep(trace, last, n, p, e);
      LivesStep(trace, last, n, last, p, e);
      forall i: nat
        ensures i != last ==>
                (MembershipLives(trace, n, i, p, e) <==>
                 MembershipLives(trace, last, i, p, e) && !TouchesPair(trace[last].op, p))
      {
        LivesStep(trace, last, n, i, p, e);
      }
    }
  }

  /** A read finds the timers of the membership that shows, if one does. */
  lemma ReadShows<V>(trace: seq<Call<V>>, n: nat, timers: Timers)
    requires n < |trace| && trace[n].op.MembershipState?
    ensures Answer(ActualAfter(trace, n), trace[n].op, trace[n].at) == State(Some(timers)) <==>
            exists e :: Shows(trace, n, trace[n].op.pair, e) && e.value == timers
  {
    var p, m := trace[n].op.pair, ActualAfter(trace, n).memberships;
    if Visible(m, p, trace[n].at) {
      assert Shows(trace, n, p, m[p]);
    }
  }

  /**
   In every chronological run, with updates of any kind, a membership reads as these timers exactly if
   some earlier call wrote them with a time-to-live that reaches past the read, and no write or
   clearing of the pair lies between.
   */
  lemma MembershipStateIff<V>(trace: seq<Call<V>>, n: nat, timers: Timers)
    requires Chronological(trace) && n < |trace| && trace[n].op.MembershipState?
    ensures Answer(ActualAfter(trace, n), trace[n].op, trace[n].at) == State(Some(timers)) <==>
            exists i: nat, e :: MembershipLives(trace, n, i, trace[n].op.pair, e) && e.value == timers
  {
    var p := trace[n].op.pair;
    ReadShows(trace, n, timers);
    if e :| Shows(trace, n, p, e) && e.value == timers {
      MembershipHistory(trace, n, p, e);
      var i: nat :| MembershipLives(trace, n, i, p, e);
    }
    if i: nat, e :| MembershipLives(trace, n, i, p, e) && e.value == timers {
      MembershipHistory(trace, n, p, e);
    }
  }

  /** A listing of a trackable holds exactly its living memberships. */
  lemma ListInsideIff<V>(trace: seq<Call<V>>, n: nat, p: Pair, e: Expiring<Timers>)
    requires Chronological(trace) && n < |trace| && trace[n].op.ListInside?
    ensures var r := Answer(ActualAfter(trace, n), trace[n].op, trace[n].at);
            && r.Inside?
            && ((p in r.pairs && r.pairs[p] == e) <==>
                p.0 == trace[n].op.trackable && exists i: nat :: MembershipLives(trace, n, i, p, e))
  {
    MembershipHistory(trace, n, p, e);
  }

  /** A later set replaces a living value: setting 1 and then 2 reads as 2. */
  lemma LaterSetReplaces(c: Cell)
    ensures var trace := [Call(Op.Set(c, 1, 30), 0), Call(Op.Set(c, 2, 30), 10), Call(Op.Get(c), 11)];
            Answer(ActualAfter(trace, 2), trace[2].op, 11) == Found(Some(2))
  {
    var trace := [Call(Op.Set(c, 1, 30), 0), Call(Op.Set(c, 2, 30), 10), Call(Op.Get(c), 11)];
    assert SetBy(trace, 2, 1, c);
    GetIff(trace, 2, 2);
  }

  // ---------------------------------------------------------------------------
  // Deduplication
  // ---------------------------------------------------------------------------

  /** Call i asked for key k and was told that it is new. */
  ghost predicate AnsweredNew<V>(trace: seq<Call<V>>, i: nat, k: string) {
    && i < |trace| && trace[i].op.Deduplicate? && trace[i].op.key == k
    && Answer(ActualAfter(trace, i), trace[i].op, trace[i].at) == Accepted(true)
  }

  /** A key is refused exactly while an earlier call that was accepted for it is within its own time-to-live. */
  lemma RefusedIff<V>(trace: seq<Call<V>>, n: nat)
    requires Chronological(trace) && n < |trace| && trace[n].op.Deduplicate?
    ensures Answer(ActualAfter(trace, n), trace[n].op, trace[n].at) == Accepted(false) <==>
            exists i: nat :: i < n && AnsweredNew(trace, i, trace[n].op.key) &&
                             trace[n].at < trace[i].at + trace[i].op.ttl
  {
    if Answer(ActualAfter(trace, n), trace[n].op, trace[n].at) == Accepted(false) {
      var i := RefusedHasWitness(trace, n);
      assert AnsweredNew(trace, i, trace[n].op.key);
    } else if i: nat :| i < n && AnsweredNew(trace, i, trace[n].op.key) &&
                        trace[n].at < trace[i].at + trace[i].op.ttl {
      AcceptedApart(trace, i, n);
    }
  }
}
