/**
 What a pair's membership is at any step of a run, read off the looks before it: which look
 wrote it and when it expires, since when an exit counts down and since when the pair has
 been tolerated. From these follow, in both directions, when an entry and an exit come.
 */
module FenceHistory {
  import opened Wrappers
  import opened ProcessingState
  import opened FenceRules

  // ---------------------------------------------------------------------------
  // The look that wrote the membership
  // ---------------------------------------------------------------------------

  /** Step k looked at the pair and found it inside. */
  ghost predicate InsideAt(run: seq<Step>, k: nat) {
    k < |run| && var c := Observed(Before(run, k), run[k]); c.Some? && c.value.inside
  }

  /** Step k writes a membership: inside, outside without being ready to exit, or starting a countdown. */
  ghost predicate WritesAt(run: seq<Step>, k: nat) {
    InsideAt(run, k) || (OutsideAt(run, k) && !ReadyAt(run, k)) || PendsAt(run, k)
  }

  /** Step k leaves the membership as it is: the countdown of an exit still runs. */
  ghost predicate WaitsAt(run: seq<Step>, k: nat) {
    && ReadyAt(run, k) && Before(run, k).value.value.exitPendingSince.Some?
    && run[k].at - Before(run, k).value.value.exitPendingSince.value < run[k].policy.exitDelay
  }

  /** The membership before step n is the one that step m wrote. */
  ghost predicate WrittenBy(run: seq<Step>, n: nat, m: nat) {
    m < n <= |run| && WritesAt(run, m) && forall k :: m < k < n ==> WaitsAt(run, k)
  }

  /** Every step writes, waits or takes the membership away. */
  lemma StepKinds(run: seq<Step>, k: nat)
    requires k < |run|
    ensures WritesAt(run, k) ==>
              !WaitsAt(run, k) && run[k].Call? && Before(run, k + 1).Some? &&
              Before(run, k + 1).value.expiresAt == run[k].at + run[k].ttl
    ensures WaitsAt(run, k) ==> Before(run, k + 1) == Before(run, k)
    ensures !WritesAt(run, k) && !WaitsAt(run, k) ==> Before(run, k + 1) == None
  {
  }

  /** There is a membership exactly if some step wrote it and the steps since then waited; it expires by that step. */
  lemma {:induction false} WrittenIff(run: seq<Step>, n: nat)
    requires n <= |run|
    ensures Before(run, n).Some? <==> exists m: nat :: WrittenBy(run, n, m)
    ensures forall m: nat :: WrittenBy(run, n, m) ==>
                          run[m].Call? && Before(run, n).Some? &&
                          Before(run, n).value.expiresAt == run[m].at + run[m].ttl
    decreases n
  {
    if n > 0 {
      var last := n - 1;
      WrittenIff(run, last);
      StepKinds(run, last);
      forall m: nat | WrittenBy(run, n, m) && m != last ensures WrittenBy(run, last, m) && WaitsAt(run, last) {
        assert forall k :: m < k < last ==> WaitsAt(run, k);
      }
      if WritesAt(run, last) {
        assert WrittenBy(run, n, last);
      } else if Before(run, n).Some? {
        var m: nat :| WrittenBy(run, last, m);
        assert WrittenBy(run, n, m);
      }
    }
  }

  /** Some earlier look wrote a membership that is still within that look's own time-to-live at step n. */
  ghost predicate Held(run: seq<Step>, n: nat) {
    n < |run| && exists m: nat :: WrittenBy(run, n, m) && run[m].Call? && run[n].at < run[m].at + run[m].ttl
  }

  lemma ActiveIff(run: seq<Step>, n: nat)
    requires n < |run|
    ensures Active(Before(run, n), run[n].at) <==> Held(run, n)
  {
    WrittenIff(run, n);
    if Active(Before(run, n), run[n].at) {
      var m: nat :| WrittenBy(run, n, m);
    }
  }

  /** A candidate look that finds the pair inside. */
  predicate LooksInside(s: Step) {
    s.Call? && s.look.Candidate? && s.look.containment.inside
  }

  /** An inside look emits an entry if and only if no earlier look's membership is still held; nothing else does. */
  lemma EntryIff(run: seq<Step>, n: nat)
    requires n < |run|
    ensures Emitted(run, n) == Entry <==> LooksInside(run[n]) && !Held(run, n)
  {
    ActiveIff(run, n);
  }

  // ---------------------------------------------------------------------------
  // Since when an exit counts down, and since when the pair is tolerated
  // ---------------------------------------------------------------------------

  ghost predicate CountsSince(run: seq<Step>, m: nat, n: nat) {
    m < n <= |run| && PendsAt(run, m) && forall k :: m < k < n ==> WaitsAt(run, k)
  }

  lemma PendKinds(run: seq<Step>, k: nat)
    requires k < |run| && Before(run, k + 1).Some?
    ensures var since := Before(run, k + 1).value.value.exitPendingSince;
            && (PendsAt(run, k) ==> since == Some(run[k].at) && !WaitsAt(run, k))
            && (!PendsAt(run, k) && !WaitsAt(run, k) ==> since == None)
  {
  }

  /** A countdown runs exactly since the step that started it, with nothing but waiting in between. */
  lemma {:induction false} CountdownIff(run: seq<Step>, n: nat)
    requires n <= |run| && Before(run, n).Some?
    ensures forall m: nat :: CountsSince(run, m, n) ==> Before(run, n).value.value.exitPendingSince == Some(run[m].at)
    ensures Before(run, n).value.value.exitPendingSince.Some? ==> exists m: nat :: CountsSince(run, m, n)
    decreases n
  {
    if n > 0 {
      var last := n - 1;
      StepKinds(run, last);
      PendKinds(run, last);
      forall m: nat | CountsSince(run, m, n) && m != last ensures CountsSince(run, m, last) && WaitsAt(run, last) {
      }
      if PendsAt(run, last) {
        assert CountsSince(run, last, n);
      } else if WaitsAt(run, last) {
        CountdownIff(run, last);
        var m: nat :| CountsSince(run, m, last);
        assert CountsSince(run, m, n);
      }
    }
  }

  /** Step m is the first of a stretch within tolerance. */
  ghost predicate ToleranceStartsAt(run: seq<Step>, m: nat) {
    InToleranceAt(run, m) && WritesAt(run, m) && Before(run, m).value.value.toleranceStartedAt.None?
  }

  ghost predicate StaysTolerated(run: seq<Step>, k: nat) {
    (InToleranceAt(run, k) && WritesAt(run, k)) || WaitsAt(run, k)
  }

  ghost predicate TolerantSince(run: seq<Step>, m: nat, n: nat) {
    m < n <= |run| && ToleranceStartsAt(run, m) && forall k :: m < k < n ==> StaysTolerated(run, k)
  }

  lemma ToleranceKinds(run: seq<Step>, k: nat)
    requires k < |run| && Before(run, k + 1).Some?
    ensures var started := Before(run, k + 1).value.value.toleranceStartedAt;
            && (ToleranceStartsAt(run, k) ==> started == Some(run[k].at))
            && (StaysTolerated(run, k) && !ToleranceStartsAt(run, k) ==>
                  Before(run, k).Some? && started == Before(run, k).value.value.toleranceStartedAt)
            && (!StaysTolerated(run, k) ==> started == None)
  {
  }

  /** The tolerance clock runs exactly since the first step of the stretch; a look beyond the tolerance stops it. */
  lemma {:induction false} ToleranceIff(run: seq<Step>, n: nat)
    requires n <= |run| && Before(run, n).Some?
    ensures forall m: nat :: TolerantSince(run, m, n) ==>
                               Before(run, n).value.value.toleranceStartedAt == Some(run[m].at)
    ensures Before(run, n).value.value.toleranceStartedAt.Some? ==> exists m: nat :: TolerantSince(run, m, n)
    decreases n
  {
    if n > 0 {
      var last := n - 1;
      StepKinds(run, last);
      ToleranceKinds(run, last);
      forall m: nat | TolerantSince(run, m, n) && m != last
        ensures TolerantSince(run, m, last) && StaysTolerated(run, last)
      {
      }
      if ToleranceStartsAt(run, last) {
        assert TolerantSince(run, last, n);
        assert forall m: nat :: TolerantSince(run, m, n) && m != last ==> TolerantSince(run, m, last);
      }
      if StaysTolerated(run, last) && Before(run, last).Some? {
        ToleranceIff(run, last);
        if m: nat :| TolerantSince(run, m, last) {
          assert TolerantSince(run, m, n);
        }
      }
    }
  }

  // ---------------------------------------------------------------------------
  // When an exit comes
  // ---------------------------------------------------------------------------

  /** The tolerance timeout of step n has passed since step m. */
  predicate RunsOut(run: seq<Step>, m: nat, n: nat)
    requires m < |run| && n < |run|
  {
    run[n].Call? && run[n].policy.timeoutActive && run[n].at - run[m].at >= run[n].policy.toleranceTimeout
  }

  /** Ready means beyond the tolerance, or tolerated for the timeout, counted from the stretch's first step. */
  lemma ReadyIff(run: seq<Step>, n: nat)
    requires n < |run|
    ensures ReadyAt(run, n) <==>
            Held(run, n) && LooksOutside(run[n]) &&
            (LooksBeyond(run[n]) || (exists m: nat :: TolerantSince(run, m, n) && RunsOut(run, m, n)) ||
             ((forall m: nat :: !TolerantSince(run, m, n)) && RunsOut(run, n, n)))
  {
    ActiveIff(run, n);
    if Before(run, n).Some? {
      ToleranceIff(run, n);
    }
  }

  /** Ready, and with the exit delay over since the countdown began, or without one: exactly then an exit is emitted. */
  lemma ExitIff(run: seq<Step>, n: nat)
    requires n < |run|
    ensures Emitted(run, n) == Exit <==>
            ReadyAt(run, n) &&
            ((exists m: nat :: CountsSince(run, m, n) && Due(run, m, n)) ||
             ((forall m: nat :: !CountsSince(run, m, n)) && Due(run, n, n)))
  {
    if Before(run, n).Some? {
      CountdownIff(run, n);
    }
  }

  // ---------------------------------------------------------------------------
  // The same from the looks alone
  // ---------------------------------------------------------------------------

  /** A look that finds the pair inside, or outside but within a tolerance that never times out. */
  predicate LooksKept(s: Step) {
    && s.Call? && !s.look.Gone? && (s.look.Elsewhere? ==> s.look.floorMatches)
    && (s.look.containment.inside || (InTolerance(s.look.containment, s.policy) && !s.policy.timeoutActive))
  }

  /** Step k comes before the time-to-live of the step before it is over. */
  predicate InTime(run: seq<Step>, k: nat)
    requires 0 < k < |run|
  {
    run[k - 1].Call? && run[k].at < run[k - 1].at + run[k - 1].ttl
  }

  /** Looks that keep the pair and follow one another in time renew the membership, each with its own time-to-live. */
  lemma {:induction false} Renewed(run: seq<Step>, m: nat, n: nat)
    requires m <= n < |run| && LooksInside(run[m])
    requires forall k :: m < k <= n ==> LooksKept(run[k]) && InTime(run, k)
    ensures Before(run, n + 1).Some? && Before(run, n + 1).value.expiresAt == run[n].at + run[n].ttl
    ensures m < n ==> Emitted(run, n) == Silent
    decreases n
  {
    if m < n {
      Renewed(run, m, n - 1);
      assert LooksKept(run[n]) && InTime(run, n);
    }
  }

  /** A membership that a look comes too late for is lost, and looks from outside do not bring it back. */
  lemma {:induction false} LateLookLoses(run: seq<Step>, m: nat, late: nat, n: nat)
    requires m < late <= n < |run| && LooksInside(run[m])
    requires forall k :: m < k < late ==> LooksKept(run[k]) && InTime(run, k)
    requires !InTime(run, late) && run[late - 1].Call?
    requires forall k :: late <= k < n ==> LooksOutside(run[k])
    ensures !Active(Before(run, n), run[n].at)
    decreases n
  {
    if n == late {
      Renewed(run, m, n - 1);
    } else {
      LateLookLoses(run, m, late, n - 1);
      assert LooksOutside(run[n - 1]);
    }
  }

  lemma {:induction false} FirstLate(run: seq<Step>, m: nat, n: nat) returns (late: nat)
    requires m < n < |run| && !InTime(run, n)
    ensures m < late <= n && !InTime(run, late) && forall k :: m < k < late ==> InTime(run, k)
    decreases n
  {
    late := n;
    if exists k :: m < k < n && !InTime(run, k) {
      var k :| m < k < n && !InTime(run, k);
      late := FirstLate(run, m, k);
    }
  }

  /**
   Between two inside looks with nothing but tolerated looks in between, the second emits an
   entry if and only if some look of the stretch came too late for the one before it.
   */
  lemma ReentryIff(run: seq<Step>, m: nat, n: nat)
    requires m < n < |run| && LooksInside(run[m]) && LooksInside(run[n])
    requires forall k :: m < k < n ==> LooksKept(run[k]) && LooksOutside(run[k])
    ensures Emitted(run, n) == Entry <==> exists k :: m < k <= n && !InTime(run, k)
  {
    if k :| m < k <= n && !InTime(run, k) {
      var late := FirstLate(run, m, k);
      LateLookLoses(run, m, late, n);
    } else {
      Renewed(run, m, n);
    }
  }

  /** A time-to-live of 30 holds over inside looks at 0, 20 and 40. */
  lemma InsideLooksRenew()
    ensures var here := Candidate(Containment(true, 0.0));
            var policy := Policy(0.0, 0, false, 0);
            var run := [Step.Call(0, here, policy, 30), Step.Call(20, here, policy, 30),
                        Step.Call(40, here, policy, 30)];
            Emitted(run, 0) == Entry && Emitted(run, 1) == Silent && Emitted(run, 2) == Silent
  {
    var here, policy := Candidate(Containment(true, 0.0)), Policy(0.0, 0, false, 0);
    var run := [Step.Call(0, here, policy, 30), Step.Call(20, here, policy, 30), Step.Call(40, here, policy, 30)];
    ReentryIff(run, 0, 1);
    Renewed(run, 0, 2);
  }

  // ---------------------------------------------------------------------------
  // When a tolerated pair exits
  // ---------------------------------------------------------------------------

  /** A look outside but within the exit tolerance. */
  predicate LooksWithin(s: Step) {
    LooksOutside(s) && InTolerance(s.look.containment, s.policy)
  }

  /** A stretch within tolerance begins at step m, and its timeout is not over at once. */
  predicate BeginsWithin(run: seq<Step>, m: nat) {
    && m < |run| && Active(Before(run, m), run[m].at) && Before(run, m).value.value.toleranceStartedAt.None?
    && LooksWithin(run[m]) && !RunsOut(run, m, m)
  }

  /** Until the timeout the membership is renewed at every look that comes in time, and lost at one that does not. */
  lemma {:induction false} WithinKeeps(run: seq<Step>, m: nat, n: nat)
    requires BeginsWithin(run, m) && m <= n < |run|
    requires forall k :: m < k <= n ==> LooksWithin(run[k]) && !RunsOut(run, m, k)
    ensures run[n].Call? && Emitted(run, n) == Silent
    ensures Before(run, n + 1) ==
            if forall k :: m < k <= n ==> InTime(run, k)
            then Some(Expiring(Timers(Some(run[m].at), None), run[n].at + run[n].ttl)) else None
    decreases n
  {
    if n > m {
      WithinKeeps(run, m, n - 1);
      assert LooksWithin(run[n]) && !RunsOut(run, m, n) && LooksOutside(run[n]);
      assert n - 1 > m ==> LooksWithin(run[n - 1]);
      assert (forall k :: m < k <= n ==> InTime(run, k)) <==>
             (forall k :: m < k <= n - 1 ==> InTime(run, k)) && InTime(run, n);
    }
  }

  /**
   The first look within tolerance after the timeout exits, or starts the countdown if there is
   an exit delay, if and only if every look since the stretch began came in time for the one before.
   */
  lemma ToleranceExitIff(run: seq<Step>, m: nat, n: nat)
    requires BeginsWithin(run, m) && m < n < |run|
    requires forall k :: m < k <= n ==> LooksWithin(run[k])
    requires (forall k :: m < k < n ==> !RunsOut(run, m, k)) && RunsOut(run, m, n)
    ensures var inTime := forall k :: m < k <= n ==> InTime(run, k);
            && (Emitted(run, n) == Exit <==> inTime && run[n].policy.exitDelay <= 0)
            && (PendsAt(run, n) <==> inTime && run[n].policy.exitDelay > 0)
  {
    WithinKeeps(run, m, n - 1);
    assert LooksWithin(run[n]);
    assert n - 1 > m ==> LooksWithin(run[n - 1]);
    assert (forall k :: m < k <= n ==> InTime(run, k)) <==>
           (forall k :: m < k <= n - 1 ==> InTime(run, k)) && InTime(run, n);
  }
}
