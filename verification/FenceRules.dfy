/**
 The life of one (trackable, fence) pair: entry, tolerance, delayed exit and expiry,
 as a state machine over the calls that look at the pair, and what every run of it keeps.
 */
module FenceRules {
  import opened Wrappers
  import opened ProcessingState

  /** Where a point lies relative to a fence. A failed containment test reads as (false, 0). */
  datatype Containment = Containment(inside: bool, outsideDistance: real)

  datatype Policy = Policy(exitTolerance: real, toleranceTimeout: Time, timeoutActive: bool, exitDelay: Time)

  // ---------------------------------------------------------------------------
  // Policy resolution
  // ---------------------------------------------------------------------------

  /** An optional duration that may also be switched off explicitly. */
  datatype Duration = Unset | Disabled | Millis(ms: real)

  datatype Override = Override(exitTolerance: Option<real>, toleranceTimeout: Duration, exitDelay: Duration)

  function Nanos(ms: real): Time {
    (ms * 1000000.0).Floor
  }

  predicate Sets(d: Duration) {
    d.Disabled? || (d.Millis? && d.ms > 0.0)
  }

  function ApplyOverride(p: Policy, o: Override): Policy {
    var p1 :=
      if o.exitTolerance.Some? && o.exitTolerance.value > 0.0 then p.(exitTolerance := o.exitTolerance.value) else p;
    var p2 :=
      if !Sets(o.toleranceTimeout) then p1
      else if o.toleranceTimeout.Disabled? then p1.(toleranceTimeout := 0, timeoutActive := false)
      else p1.(toleranceTimeout := Nanos(o.toleranceTimeout.ms), timeoutActive := true);
    if !Sets(o.exitDelay) then p2
    else if o.exitDelay.Disabled? then p2.(exitDelay := 0)
    else p2.(exitDelay := Nanos(o.exitDelay.ms))
  }

  /** Fence, then provider, then trackable. */
  function ResolvePolicy(fence: Override, provider: Option<Override>, trackable: Option<Override>): Policy {
    var p0 := ApplyOverride(Policy(0.0, 0, false, 0), fence);
    var p1 := if provider.Some? then ApplyOverride(p0, provider.value) else p0;
    if trackable.Some? then ApplyOverride(p1, trackable.value) else p1
  }

  /** The most specific level that sets a duration. */
  function Prevailing(trackable: Duration, provider: Duration, fence: Duration): Duration {
    if Sets(trackable) then trackable else if Sets(provider) then provider else if Sets(fence) then fence else Unset
  }

  function DurationAt(o: Option<Override>, delay: bool): Duration {
    if o.None? then Unset else if delay then o.value.exitDelay else o.value.toleranceTimeout
  }

  predicate SetsTolerance(o: Option<Override>) {
    o.Some? && o.value.exitTolerance.Some? && o.value.exitTolerance.value > 0.0
  }

  /** The most specific positive exit tolerance, or zero. */
  function PrevailingTolerance(trackable: Option<Override>, provider: Option<Override>, fence: Override): real {
    if SetsTolerance(trackable) then trackable.value.exitTolerance.value
    else if SetsTolerance(provider) then provider.value.exitTolerance.value
    else if SetsTolerance(Some(fence)) then fence.exitTolerance.value
    else 0.0
  }

  function Worth(d: Duration): Time {
    if d.Millis? then Nanos(d.ms) else 0
  }

  /** What one level does to each field. */
  lemma OneLevel(p: Policy, o: Override)
    ensures var q := ApplyOverride(p, o);
            && q.exitDelay == (if Sets(o.exitDelay) then Worth(o.exitDelay) else p.exitDelay)
            && q.toleranceTimeout ==
               (if Sets(o.toleranceTimeout) then Worth(o.toleranceTimeout) else p.toleranceTimeout)
            && (q.timeoutActive <==> if Sets(o.toleranceTimeout) then o.toleranceTimeout.Millis? else p.timeoutActive)
            && q.exitTolerance == (if SetsTolerance(Some(o)) then o.exitTolerance.value else p.exitTolerance)
  {
  }

  /** Each field comes from the most specific level that sets it; switching a duration off counts as setting it. */
  lemma PolicyPrecedence(fence: Override, provider: Option<Override>, trackable: Option<Override>)
    ensures var p := ResolvePolicy(fence, provider, trackable);
            var delay := Prevailing(DurationAt(trackable, true), DurationAt(provider, true), fence.exitDelay);
            var timeout := Prevailing(DurationAt(trackable, false), DurationAt(provider, false),
                                      fence.toleranceTimeout);
            && p.exitDelay == Worth(delay) && p.toleranceTimeout == Worth(timeout)
            && (p.timeoutActive <==> timeout.Millis?)
            && p.exitTolerance == PrevailingTolerance(trackable, provider, fence)
  {
    var none := Policy(0.0, 0, false, 0);
    OneLevel(none, fence);
    var p0 := ApplyOverride(none, fence);
    if provider.Some? {
      OneLevel(p0, provider.value);
    }
    var p1 := if provider.Some? then ApplyOverride(p0, provider.value) else p0;
    if trackable.Some? {
      OneLevel(p1, trackable.value);
    }
  }

  // ---------------------------------------------------------------------------
  // One step of one pair
  // ---------------------------------------------------------------------------

  predicate InTolerance(c: Containment, p: Policy) {
    !c.inside && p.exitTolerance > 0.0 && c.outsideDistance <= p.exitTolerance
  }

  /** Whether an exit may be counted down, and the timers it leaves behind. */
  function ExitReady(c: Containment, p: Policy, now: Time, m: Timers): (bool, Timers) {
    if c.inside then (false, Timers(None, None))
    else if p.exitTolerance <= 0.0 || c.outsideDistance > p.exitTolerance then
      (true, m.(toleranceStartedAt := None))
    else
      var started := if m.toleranceStartedAt.None? then now else m.toleranceStartedAt.value;
      var m1 := m.(toleranceStartedAt := Some(started));
      if !p.timeoutActive then (false, m1.(exitPendingSince := None))
      else if now - started >= p.toleranceTimeout then (true, m1)
      else (false, m1.(exitPendingSince := None))
  }

  datatype Outcome = Silent | Entry | Exit

  type PairState = Option<Expiring<Timers>>

  predicate Active(st: PairState, now: Time) {
    st.Some? && st.value.expiresAt > now
  }

  function Observe(st: PairState, c: Containment, p: Policy, now: Time, ttl: Time): (PairState, Outcome) {
    if c.inside then
      (Some(Expiring(Timers(None, None), now + ttl)), if Active(st, now) then Silent else Entry)
    else if !Active(st, now) then (None, Silent)
    else
      var (ready, m) := ExitReady(c, p, now, st.value.value);
      if !ready then (Some(Expiring(m, now + ttl)), Silent)
      else if m.exitPendingSince.None? then
        if 0 < p.exitDelay then (Some(Expiring(m.(exitPendingSince := Some(now)), now + ttl)), Silent) else (None, Exit)
      else if now - m.exitPendingSince.value < p.exitDelay then (st, Silent)
      else (None, Exit)
  }

  /** What a call knows about a fence before looking at the membership. */
  datatype Look =
    | Candidate(containment: Containment)
    | Elsewhere(containment: Containment, floorMatches: bool)
    | Gone

  datatype Step =
    | Call(at: Time, look: Look, policy: Policy, ttl: Time)
    | Forget(at: Time)

  /** The containment that a call tests the pair against, if it tests the pair at all. */
  function Observed(st: PairState, s: Step): Option<Containment> {
    if s.Forget? then None
    else match s.look
      case Candidate(c) => Some(c)
      case Elsewhere(c, floorMatches) => if Active(st, s.at) && floorMatches then Some(c) else None
      case Gone => None
  }

  function PairStep(st: PairState, s: Step): (PairState, Outcome) {
    var c := Observed(st, s);
    if c.Some? then Observe(st, c.value, s.policy, s.at, s.ttl) else (None, Silent)
  }

  // ---------------------------------------------------------------------------
  // Runs
  // ---------------------------------------------------------------------------

  ghost predicate InOrder(run: seq<Step>) {
    forall i, j :: 0 <= i < j < |run| ==> run[i].at <= run[j].at
  }

  function Before(run: seq<Step>, n: nat): PairState
    requires n <= |run|
  {
    if n == 0 then None else PairStep(Before(run, n - 1), run[n - 1]).0
  }

  function Emitted(run: seq<Step>, n: nat): Outcome
    requires n < |run|
  {
    PairStep(Before(run, n), run[n]).1
  }

  /** Step k found the pair active and outside. */
  ghost predicate OutsideAt(run: seq<Step>, k: nat) {
    k < |run| && Active(Before(run, k), run[k].at) &&
    var c := Observed(Before(run, k), run[k]); c.Some? && !c.value.inside
  }

  /** ... and ready to exit. */
  ghost predicate ReadyAt(run: seq<Step>, k: nat) {
    OutsideAt(run, k) &&
    ExitReady(Observed(Before(run, k), run[k]).value, run[k].policy, run[k].at, Before(run, k).value.value).0
  }

  /** ... and within the exit tolerance. */
  ghost predicate InToleranceAt(run: seq<Step>, k: nat) {
    OutsideAt(run, k) && InTolerance(Observed(Before(run, k), run[k]).value, run[k].policy)
  }

  /** A pending exit goes back to a step since which every step was ready, and nothing renewed the expiry. */
  ghost predicate PendingSince(run: seq<Step>, n: nat, m: nat, since: Time, expiresAt: Time) {
    && m < n <= |run| && run[m].Call? && run[m].at == since && expiresAt == since + run[m].ttl
    && forall k :: m <= k < n ==> ReadyAt(run, k)
  }

  /** A running tolerance goes back to an in-tolerance step since which every step was outside. */
  ghost predicate ToleratedSince(run: seq<Step>, n: nat, m: nat, since: Time) {
    && m < n <= |run| && run[m].at == since && InToleranceAt(run, m)
    && forall k :: m <= k < n ==> OutsideAt(run, k)
  }

  lemma {:induction false} PendingHistory(run: seq<Step>, n: nat) returns (m: nat)
    requires n <= |run|
    ensures var st := Before(run, n);
            st.Some? && st.value.value.exitPendingSince.Some? ==>
              PendingSince(run, n, m, st.value.value.exitPendingSince.value, st.value.expiresAt)
    decreases n
  {
    m := 0;
    if n > 0 {
      m := PendingHistory(run, n - 1);
      var st, st' := Before(run, n - 1), Before(run, n);
      if st'.Some? && st'.value.value.exitPendingSince.Some? {
        assert ReadyAt(run, n - 1);
        if st' != st {
          m := n - 1;
        }
      }
    }
  }

  lemma {:induction false} ToleranceHistory(run: seq<Step>, n: nat) returns (m: nat)
    requires n <= |run|
    ensures var st := Before(run, n);
            st.Some? && st.value.value.toleranceStartedAt.Some? ==>
              ToleratedSince(run, n, m, st.value.value.toleranceStartedAt.value)
    decreases n
  {
    m := 0;
    if n > 0 {
      m := ToleranceHistory(run, n - 1);
      var st, st' := Before(run, n - 1), Before(run, n);
      if st'.Some? && st'.value.value.toleranceStartedAt.Some? {
        assert OutsideAt(run, n - 1);
        if st.value.value.toleranceStartedAt.None? {
          m := n - 1;
        }
      }
    }
  }

  // ---------------------------------------------------------------------------
  // What every run keeps
  // ---------------------------------------------------------------------------

  /**
   An exit was preceded, exit delay earlier, by a step since which the pair was outside and
   ready at every step; the membership written then was still alive.
   */
  lemma ExitJustified(run: seq<Step>, n: nat) returns (m: nat)
    requires n < |run| && Emitted(run, n) == Exit
    ensures m <= n && run[m].Call? && run[n].Call? && run[m].at + run[n].policy.exitDelay <= run[n].at
    ensures forall k :: m <= k <= n ==> ReadyAt(run, k)
    ensures m < n ==> run[n].at < run[m].at + run[m].ttl
  {
    var st := Before(run, n);
    assert ReadyAt(run, n);
    if st.value.value.exitPendingSince.Some? {
      m := PendingHistory(run, n);
    } else {
      m := n;
    }
  }

  // ---------------------------------------------------------------------------
  // When a delayed exit comes
  // ---------------------------------------------------------------------------

  /** A call that looks at the pair and finds it outside. */
  predicate LooksOutside(s: Step) {
    s.Call? && !s.look.Gone? && (s.look.Elsewhere? ==> s.look.floorMatches) && !s.look.containment.inside
  }

  /** ... and that an exit counted down with these timers may proceed at. */
  predicate ReadyWith(timers: Timers, s: Step) {
    LooksOutside(s) && ExitReady(s.look.containment, s.policy, s.at, timers).0
  }

  /** ... and beyond the exit tolerance. */
  predicate LooksBeyond(s: Step) {
    LooksOutside(s) && (s.policy.exitTolerance <= 0.0 || s.look.containment.outsideDistance > s.policy.exitTolerance)
  }

  /** Step m starts the countdown of a delayed exit. */
  predicate PendsAt(run: seq<Step>, m: nat) {
    && m < |run| && Active(Before(run, m), run[m].at) && Before(run, m).value.value.exitPendingSince.None?
    && ReadyWith(Before(run, m).value.value, run[m]) && run[m].policy.exitDelay > 0
  }

  /** The exit delay of step k has passed since step m. */
  predicate Due(run: seq<Step>, m: nat, k: nat)
    requires m < |run| && k < |run|
  {
    run[k].Call? && run[k].at - run[m].at >= run[k].policy.exitDelay
  }

  /** The timers that the countdown started at step m runs with. */
  function PendingTimers(run: seq<Step>, m: nat): Timers
    requires PendsAt(run, m)
  {
    Before(run, m + 1).value.value
  }

  /** While the countdown runs, nothing is written: the membership is the one of step m, or has expired. */
  lemma {:induction false} WaitingKeeps(run: seq<Step>, m: nat, n: nat)
    requires InOrder(run) && PendsAt(run, m) && m < n < |run|
    requires forall k :: m < k < n ==> ReadyWith(PendingTimers(run, m), run[k]) && !Due(run, m, k)
    ensures Emitted(run, m) == Silent && (n > m + 1 ==> Emitted(run, n - 1) == Silent)
    ensures Before(run, m + 1) == Some(Expiring(PendingTimers(run, m), run[m].at + run[m].ttl))
    ensures PendingTimers(run, m).exitPendingSince == Some(run[m].at)
    ensures Before(run, n) == Before(run, m + 1) || (Before(run, n) == None && run[n].at >= run[m].at + run[m].ttl)
    decreases n
  {
    if n > m + 1 {
      WaitingKeeps(run, m, n - 1);
      assert ReadyWith(PendingTimers(run, m), run[n - 1]) && !Due(run, m, n - 1);
      assert run[n - 1].at <= run[n].at;
    }
  }

  /**
   Once pending since step m, with every later look ready, the first look after the delay
   exits if and only if it comes before the membership written at step m expires. Nothing
   in between renews that membership, and after this look it is gone either way.
   */
  lemma DelayedExitIff(run: seq<Step>, m: nat, n: nat)
    requires InOrder(run) && PendsAt(run, m) && m < n < |run|
    requires forall k :: m < k <= n ==> ReadyWith(PendingTimers(run, m), run[k])
    requires (forall k :: m < k < n ==> !Due(run, m, k)) && Due(run, m, n)
    ensures Emitted(run, n) == (if run[n].at < run[m].at + run[m].ttl then Exit else Silent)
    ensures Before(run, n + 1) == None
  {
    WaitingKeeps(run, m, n);
    assert ReadyWith(PendingTimers(run, m), run[n]);
  }

  /** A lost membership stays lost while every look is outside. */
  lemma {:induction false} StaysGone(run: seq<Step>, m: nat, n: nat)
    requires m <= n < |run| && Before(run, m) == None && forall k :: m <= k <= n ==> LooksOutside(run[k])
    ensures Before(run, n) == None && Emitted(run, n) == Silent
    decreases n
  {
    if m < n {
      StaysGone(run, m, n - 1);
      assert LooksOutside(run[n - 1]);
    }
    assert LooksOutside(run[n]);
  }

  lemma {:induction false} FirstDue(run: seq<Step>, m: nat, n: nat) returns (f: nat)
    requires m < n < |run| && Due(run, m, n)
    ensures m < f <= n && Due(run, m, f) && forall k :: m < k < f ==> !Due(run, m, k)
    decreases n
  {
    f := n;
    if exists k :: m < k < n && Due(run, m, k) {
      var k :| m < k < n && Due(run, m, k);
      f := FirstDue(run, m, k);
    }
  }

  /** Without a due look there is no exit. */
  lemma NoDueNoExit(run: seq<Step>, m: nat, n: nat)
    requires InOrder(run) && PendsAt(run, m) && m < n < |run|
    requires forall k :: m < k <= n ==> LooksBeyond(run[k]) && !Due(run, m, k)
    ensures Emitted(run, n) != Exit
  {
    WaitingKeeps(run, m, n);
    assert LooksBeyond(run[n]) && !Due(run, m, n);
  }

  /**
   A pair that leaves at step m and stays beyond the tolerance gets its exit if and only if
   some look falls between the exit delay and the expiry of the membership.
   */
  lemma LeavingExitsIff(run: seq<Step>, m: nat)
    requires InOrder(run) && PendsAt(run, m) && forall k :: m < k < |run| ==> LooksBeyond(run[k])
    ensures (exists n :: m < n < |run| && Emitted(run, n) == Exit) <==>
            (exists n :: m < n < |run| && Due(run, m, n) && run[n].at < run[m].at + run[m].ttl)
  {
    assert forall k :: m < k < |run| ==> LooksBeyond(run[k]) ==> ReadyWith(PendingTimers(run, m), run[k]);
    if n :| m < n < |run| && Due(run, m, n) && run[n].at < run[m].at + run[m].ttl {
      var f := FirstDue(run, m, n);
      DelayedExitIff(run, m, f);
      assert run[f].at <= run[n].at;
      assert Emitted(run, f) == Exit;
    }
    if n :| m < n < |run| && Emitted(run, n) == Exit {
      ExitIsFirstDue(run, m, n);
    }
  }

  lemma ExitIsFirstDue(run: seq<Step>, m: nat, n: nat)
    requires InOrder(run) && PendsAt(run, m) && m < n < |run| && Emitted(run, n) == Exit
    requires forall k :: m < k <= n ==> LooksBeyond(run[k])
    ensures Due(run, m, n) && run[n].at < run[m].at + run[m].ttl
  {
    if forall k :: m < k <= n ==> !Due(run, m, k) {
      NoDueNoExit(run, m, n);
    } else {
      var d :| m < d <= n && Due(run, m, d);
      var f := FirstDue(run, m, d);
      DelayedExitIff(run, m, f);
      if f < n {
        StaysGone(run, f + 1, n);
      }
    }
  }

  /** A time-to-live of 30 loses an exit delayed by 25 when the looks come every 20. */
  lemma SparseLooksLoseExit()
    ensures var out := Candidate(Containment(false, 5.0));
            var policy := Policy(0.0, 0, false, 25);
            var run := [Step.Call(0, Candidate(Containment(true, 0.0)), policy, 30), Step.Call(1, out, policy, 30),
                        Step.Call(21, out, policy, 30), Step.Call(41, out, policy, 30)];
            && InOrder(run) && PendsAt(run, 1) && Emitted(run, 0) == Entry
            && (forall n :: 1 <= n < 4 ==> Emitted(run, n) == Silent) && Before(run, 4) == None
  {
    var out := Candidate(Containment(false, 5.0));
    var policy := Policy(0.0, 0, false, 25);
    var run := [Step.Call(0, Candidate(Containment(true, 0.0)), policy, 30), Step.Call(1, out, policy, 30),
                Step.Call(21, out, policy, 30), Step.Call(41, out, policy, 30)];
    assert Before(run, 1) == Some(Expiring(Timers(None, None), 30));
    assert Before(run, 2) == Some(Expiring(Timers(None, Some(1)), 31));
    assert Before(run, 3) == Before(run, 2);
    assert Before(run, 4) == None;
  }

  /** In particular an exit delay that reaches the membership's time-to-live never lets an exit out. */
  lemma DelayBeyondTtlNeverExits(run: seq<Step>, n: nat, limit: Time)
    requires n < |run| && forall k :: 0 <= k < |run| && run[k].Call? ==> run[k].ttl <= limit
    requires run[n].Call? && run[n].policy.exitDelay >= limit && run[n].policy.exitDelay > 0
    ensures Emitted(run, n) != Exit
  {
    if Emitted(run, n) == Exit {
      var m := ExitJustified(run, n);
    }
  }

  // ---------------------------------------------------------------------------
  // Tolerance, entries and exits
  // ---------------------------------------------------------------------------

  /** An exit from within tolerance needs an active timeout that has run out without an inside observation. */
  lemma ToleranceExitJustified(run: seq<Step>, n: nat) returns (m: nat)
    requires n < |run| && Emitted(run, n) == Exit && InToleranceAt(run, n)
    ensures run[n].policy.timeoutActive
    ensures m <= n && InToleranceAt(run, m) && run[m].at + run[n].policy.toleranceTimeout <= run[n].at
    ensures forall k :: m <= k <= n ==> OutsideAt(run, k)
  {
    var st := Before(run, n);
    if st.value.value.toleranceStartedAt.Some? {
      m := ToleranceHistory(run, n);
    } else {
      m := n;
    }
  }

  /** Without an active timeout nothing ever exits from within tolerance. */
  lemma NoExitWithinTolerance(run: seq<Step>, n: nat)
    requires n < |run| && InToleranceAt(run, n) && !run[n].policy.timeoutActive
    ensures Emitted(run, n) != Exit
  {
  }

  /** The membership was lost at step k other than through an exit. */
  ghost predicate LostAt(run: seq<Step>, k: nat) {
    && k < |run| && Before(run, k).Some?
    && (!Active(Before(run, k), run[k].at) || Observed(Before(run, k), run[k]).None?)
  }

  /** A stored membership goes back to one entry with neither event nor loss since. */
  ghost predicate EnteredAt(run: seq<Step>, n: nat, m: nat) {
    && m < n <= |run| && Emitted(run, m) == Entry
    && forall k :: m < k < n ==> Emitted(run, k) == Silent && !LostAt(run, k)
  }

  lemma {:induction false} EntryHistory(run: seq<Step>, n: nat) returns (m: nat)
    requires n <= |run|
    ensures Before(run, n).Some? ==> EnteredAt(run, n, m)
    decreases n
  {
    m := 0;
    if n > 0 {
      m := EntryHistory(run, n - 1);
      if Emitted(run, n - 1) == Entry {
        m := n - 1;
      } else if Before(run, n).Some? {
        assert Active(Before(run, n - 1), run[n - 1].at);
      }
    }
  }

  /** Step j entered, and nothing was emitted from then until step n. */
  ghost predicate OpenSince(run: seq<Step>, j: nat, n: nat)
    requires n <= |run|
  {
    j < n && Emitted(run, j) == Entry && forall k :: j < k < n ==> Emitted(run, k) == Silent
  }

  /** Each exit closes exactly one earlier entry, the last one, with no event between the two. */
  lemma ExitClosesEntry(run: seq<Step>, n: nat) returns (m: nat)
    requires n < |run| && Emitted(run, n) == Exit
    ensures OpenSince(run, m, n) && forall j :: OpenSince(run, j, n) ==> j == m
  {
    m := EntryHistory(run, n);
  }

  /** From an entry on, the membership stays until an exit or a loss. */
  lemma {:induction false} HeldSince(run: seq<Step>, m: nat, n: nat)
    requires m < n <= |run| && Emitted(run, m) == Entry
    requires forall k :: m < k < n ==> Emitted(run, k) != Exit && !LostAt(run, k)
    ensures Before(run, n).Some?
    decreases n
  {
    if n > m + 1 {
      HeldSince(run, m, n - 1);
      assert !LostAt(run, n - 1);
    }
  }

  /** Two entries without an exit between them mean that the membership expired or was cleared between them. */
  lemma ReentryMeansLoss(run: seq<Step>, m: nat, n: nat) returns (k: nat)
    requires m < n < |run| && Emitted(run, m) == Entry && Emitted(run, n) == Entry
    requires forall i :: m < i < n ==> Emitted(run, i) != Exit
    ensures m < k <= n && LostAt(run, k)
  {
    if exists i :: m < i < n && LostAt(run, i) {
      k :| m < k < n && LostAt(run, k);
    } else {
      HeldSince(run, m, n);
      k := n;
    }
  }
}
