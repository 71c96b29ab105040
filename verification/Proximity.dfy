/**
 The proximity resolver: which zone a provider is reported in, with hysteresis. A reading
 names a candidate zone; the current zone may be kept for a while instead.
 */
module Proximity {
  import opened Wrappers
  import opened ProcessingState
  import opened RingGeometry

  datatype Policy = Policy(
    entryConfidenceMin: real,
    exitGrace: Time,
    boundaryGrace: real,
    minDwell: Time,
    fallbackRadius: real,
    staleTtl: Time)

  /** A zone as metadata describes it; an invalid policy override leaves no policy. */
  datatype Zone = Zone(id: string, position: Option<Point>, radius: Option<real>, policy: Option<Policy>)

  datatype Resolution = Resolution(zone: string, enteredAt: Time, confirmedAt: Time)

  type State = Option<Expiring<Resolution>>

  /** One proximity update: the zone it names, that zone's policy, its confidence and the zones known then. */
  datatype Reading = Reading(
    at: Time, candidate: Zone, policy: Policy, confidence: Option<real>, zones: map<string, Zone>)

  datatype Answer = Rejected | Reported(zone: string, sticky: bool)

  // ---------------------------------------------------------------------------
  // One reading
  // ---------------------------------------------------------------------------

  predicate ConfidentEnough(r: Reading) {
    r.policy.entryConfidenceMin <= 0.0 || (r.confidence.Some? && r.confidence.value >= r.policy.entryConfidenceMin)
  }

  function ZoneRadius(z: Zone, p: Policy): real {
    if z.radius.Some? then z.radius.value else p.fallbackRadius
  }

  predicate WithinBoundaryGrace(a: Zone, pa: Policy, b: Zone, pb: Policy) {
    a.position.Some? && b.position.Some? &&
    var margin := if pa.boundaryGrace > pb.boundaryGrace then pa.boundaryGrace else pb.boundaryGrace;
    var reach := ZoneRadius(a, pa) + ZoneRadius(b, pb) + margin;
    reach >= 0.0 && DistSq(a.position.value, b.position.value) <= Product(reach, reach)
  }

  predicate Expired(s: Resolution, p: Policy, now: Time) {
    now - s.confirmedAt > p.exitGrace || now - s.confirmedAt > p.staleTtl
  }

  function Enter(r: Reading): (State, Answer) {
    (Some(Expiring(Resolution(r.candidate.id, r.at, r.at), r.at + r.policy.staleTtl)), Reported(r.candidate.id, false))
  }

  /** The zone that a stored, still visible state points to. */
  function Current(st: State, r: Reading): Option<Zone> {
    if st.Some? && st.value.expiresAt > r.at && st.value.value.zone in r.zones
    then Some(r.zones[st.value.value.zone]) else None
  }

  function Stay(s: Resolution, p: Policy, now: Time, sticky: bool): (State, Answer) {
    (Some(Expiring(s, now + p.staleTtl)), Reported(s.zone, sticky))
  }

  function Resolve(st: State, r: Reading): (State, Answer) {
    if !ConfidentEnough(r) then (st, Rejected)
    else
      var current := Current(st, r);
      if current.None? then Enter(r)
      else if current.value.position.None? || current.value.policy.None? then (st, Rejected)
      else
        var s, p := st.value.value, current.value.policy.value;
        if Expired(s, p, r.at) then Enter(r)
        else if s.zone == r.candidate.id then Stay(s.(confirmedAt := r.at), p, r.at, false)
        else if r.at - s.enteredAt < p.minDwell then Stay(s, p, r.at, true)
        else if WithinBoundaryGrace(current.value, p, r.candidate, r.policy) && r.at - s.confirmedAt <= p.exitGrace then
          Stay(s, p, r.at, true)
        else Enter(r)
  }

  // ---------------------------------------------------------------------------
  // Runs
  // ---------------------------------------------------------------------------

  function Before(run: seq<Reading>, n: nat): State
    requires n <= |run|
  {
    if n == 0 then None else Resolve(Before(run, n - 1), run[n - 1]).0
  }

  function AnswerAt(run: seq<Reading>, n: nat): Answer
    requires n < |run|
  {
    Resolve(Before(run, n), run[n]).1
  }

  /** Since reading m only sticky answers for the same zone, or none, were given. */
  ghost predicate OnlySticky(run: seq<Reading>, m: nat, n: nat, zone: string)
    requires m < n <= |run|
  {
    forall k :: m < k < n ==> AnswerAt(run, k) == Rejected || AnswerAt(run, k) == Reported(zone, true)
  }

  /** Reading m named the zone itself, and no reading since then did. */
  ghost predicate ConfirmedBy(run: seq<Reading>, n: nat, m: nat, zone: string, at: Time) {
    && m < n <= |run| && run[m].at == at && run[m].candidate.id == zone
    && AnswerAt(run, m) == Reported(zone, false) && OnlySticky(run, m, n, zone)
  }

  lemma {:induction false} ConfirmationHistory(run: seq<Reading>, n: nat) returns (m: nat)
    requires n <= |run|
    ensures var st := Before(run, n);
            st.Some? ==> ConfirmedBy(run, n, m, st.value.value.zone, st.value.value.confirmedAt)
    decreases n
  {
    m := 0;
    if n > 0 {
      m := ConfirmationHistory(run, n - 1);
      if AnswerAt(run, n - 1).Reported? && !AnswerAt(run, n - 1).sticky {
        m := n - 1;
      }
    }
  }

  /** Since reading m the zone was the one reported, if any was. */
  ghost predicate OnlyZone(run: seq<Reading>, m: nat, n: nat, zone: string)
    requires m <= n <= |run|
  {
    forall k :: m <= k < n ==>
                  AnswerAt(run, k) == Rejected || (AnswerAt(run, k).Reported? && AnswerAt(run, k).zone == zone)
  }

  ghost predicate EnteredBy(run: seq<Reading>, n: nat, m: nat, zone: string, at: Time) {
    && m < n <= |run| && run[m].at == at && run[m].candidate.id == zone
    && AnswerAt(run, m) == Reported(zone, false) && OnlyZone(run, m, n, zone)
  }

  lemma {:induction false} EntryHistory(run: seq<Reading>, n: nat) returns (m: nat)
    requires n <= |run|
    ensures var st := Before(run, n);
            st.Some? ==> EnteredBy(run, n, m, st.value.value.zone, st.value.value.enteredAt)
    decreases n
  {
    m := 0;
    if n > 0 {
      m := EntryHistory(run, n - 1);
      var st, st' := Before(run, n - 1), Before(run, n);
      if st'.Some? && (st.None? || st'.value.value.zone != st.value.value.zone ||
                       st'.value.value.enteredAt != st.value.value.enteredAt) {
        m := n - 1;
      }
    }
  }

  // ---------------------------------------------------------------------------
  // What every run keeps
  // ---------------------------------------------------------------------------

  /**
   A reported zone was the candidate of a reading that, under the zone's policy at the time
   of the report, is older than neither the exit grace nor the stale time; all reports in
   between were sticky, so sticky answers do not renew the window.
   */
  lemma ReportedRecentlyConfirmed(run: seq<Reading>, n: nat) returns (m: nat)
    requires n < |run| && AnswerAt(run, n).Reported?
    ensures m <= n && run[m].candidate.id == AnswerAt(run, n).zone
    ensures AnswerAt(run, m) == Reported(AnswerAt(run, n).zone, false)
    ensures m < n ==> AnswerAt(run, n).sticky && OnlySticky(run, m, n, AnswerAt(run, n).zone)
    ensures m < n ==> var z := AnswerAt(run, n).zone;
                      && z in run[n].zones && run[n].zones[z].policy.Some?
                      && run[n].at - run[m].at <= run[n].zones[z].policy.value.exitGrace
                      && run[n].at - run[m].at <= run[n].zones[z].policy.value.staleTtl
  {
    if AnswerAt(run, n).sticky {
      m := ConfirmationHistory(run, n);
    } else {
      m := n;
    }
  }

  /**
   A report that leaves a known, unexpired zone comes no earlier than its minimum dwell
   after entry, and for a zone beyond the boundary grace.
   */
  lemma LeavesAfterDwell(run: seq<Reading>, n: nat) returns (m: nat)
    requires n < |run| && AnswerAt(run, n).Reported?
    requires var c := Current(Before(run, n), run[n]);
             && c.Some? && c.value.policy.Some?
             && !Expired(Before(run, n).value.value, c.value.policy.value, run[n].at)
             && AnswerAt(run, n).zone != Before(run, n).value.value.zone
    ensures var left := Before(run, n).value.value.zone;
            && m < n && EnteredBy(run, n, m, left, run[m].at)
            && run[n].at - run[m].at >= run[n].zones[left].policy.value.minDwell
            && !WithinBoundaryGrace(run[n].zones[left], run[n].zones[left].policy.value,
                                    run[n].candidate, run[n].policy)
  {
    m := EntryHistory(run, n);
  }

  // ---------------------------------------------------------------------------
  // The answer from the answers before it
  // ---------------------------------------------------------------------------

  /** Reading m was the last to be answered with a zone. */
  ghost predicate Standing(run: seq<Reading>, n: nat, m: nat) {
    m < n <= |run| && AnswerAt(run, m).Reported? && forall k :: m < k < n ==> AnswerAt(run, k) == Rejected
  }

  /** Reading m was the last to be answered with the very zone it named. */
  ghost predicate LastConfirmed(run: seq<Reading>, n: nat, m: nat) {
    && m < n <= |run| && AnswerAt(run, m).Reported? && !AnswerAt(run, m).sticky
    && forall k :: m < k < n ==> AnswerAt(run, k) == Rejected || AnswerAt(run, k).sticky
  }

  /** The zone held before reading k is alive and the one that reading k names. */
  ghost predicate Continues(run: seq<Reading>, k: nat)
    requires k < |run|
  {
    var c := Current(Before(run, k), run[k]);
    && c.Some? && c.value.policy.Some? && !Expired(Before(run, k).value.value, c.value.policy.value, run[k].at)
    && Before(run, k).value.value.zone == run[k].candidate.id
  }

  /** Reading k enters the zone it names, for the first time or anew. */
  ghost predicate EntersAt(run: seq<Reading>, k: nat) {
    k < |run| && AnswerAt(run, k).Reported? && !AnswerAt(run, k).sticky && !Continues(run, k)
  }

  ghost predicate LastEntered(run: seq<Reading>, n: nat, m: nat) {
    m < n <= |run| && EntersAt(run, m) && forall k :: m < k < n ==> !EntersAt(run, k)
  }

  /** How long an answer with a zone is remembered: the stale time of the policy it was given under. */
  ghost function Lease(run: seq<Reading>, m: nat): Time
    requires m < |run| && AnswerAt(run, m).Reported?
  {
    if EntersAt(run, m) then run[m].policy.staleTtl
    else run[m].zones[AnswerAt(run, m).zone].policy.value.staleTtl
  }

  /** One reading, by its answer. */
  lemma AnswerKinds(run: seq<Reading>, k: nat)
    requires k < |run|
    ensures var st, st', a := Before(run, k), Before(run, k + 1), AnswerAt(run, k);
            && (a.Rejected? ==> st' == st)
            && (a.Reported? ==>
                  && st'.Some? && st'.value.value.zone == a.zone && st'.value.expiresAt == run[k].at + Lease(run, k)
                  && (a.sticky ==> st.Some? && st'.value.value == st.value.value)
                  && (!a.sticky ==> a.zone == run[k].candidate.id && st'.value.value.confirmedAt == run[k].at)
                  && (EntersAt(run, k) ==> st'.value.value.enteredAt == run[k].at)
                  && (!EntersAt(run, k) ==> st.Some? && st'.value.value.enteredAt == st.value.value.enteredAt))
  {
  }

  /** The stored state, told from the answers: the zone last reported, until the lease of that answer is over, */
  lemma {:induction false} StandingIff(run: seq<Reading>, n: nat)
    requires n <= |run|
    ensures Before(run, n).Some? ==> exists m: nat :: Standing(run, n, m)
    ensures forall m: nat :: Standing(run, n, m) ==>
                               && Before(run, n).Some? && Before(run, n).value.value.zone == AnswerAt(run, m).zone
                               && Before(run, n).value.expiresAt == run[m].at + Lease(run, m)
    decreases n
  {
    if n > 0 {
      var last := n - 1;
      StandingIff(run, last);
      AnswerKinds(run, last);
      forall m: nat | Standing(run, n, m) && m != last ensures Standing(run, last, m) && AnswerAt(run, last).Rejected? {
      }
      if AnswerAt(run, last).Reported? {
        assert Standing(run, n, last);
      } else if m: nat :| Standing(run, last, m) {
        assert Standing(run, n, m);
      }
    }
  }

  /** ... confirmed when a reading was last answered with the zone it named, */
  lemma {:induction false} LastConfirmedIff(run: seq<Reading>, n: nat)
    requires n <= |run|
    ensures Before(run, n).Some? ==> exists m: nat :: LastConfirmed(run, n, m)
    ensures forall m: nat :: LastConfirmed(run, n, m) ==>
                               Before(run, n).Some? && Before(run, n).value.value.confirmedAt == run[m].at
    decreases n
  {
    if n > 0 {
      var last := n - 1;
      LastConfirmedIff(run, last);
      AnswerKinds(run, last);
      forall m: nat | LastConfirmed(run, n, m) && m != last ensures LastConfirmed(run, last, m) {
      }
      if AnswerAt(run, last).Reported? && !AnswerAt(run, last).sticky {
        assert LastConfirmed(run, n, last);
      } else if m: nat :| LastConfirmed(run, last, m) {
        assert LastConfirmed(run, n, m);
      }
    }
  }

  /** ... and entered at the last entry, which no confirmation moves. */
  lemma {:induction false} LastEnteredIff(run: seq<Reading>, n: nat)
    requires n <= |run|
    ensures Before(run, n).Some? ==> exists m: nat :: LastEntered(run, n, m)
    ensures forall m: nat :: LastEntered(run, n, m) ==>
                               Before(run, n).Some? && Before(run, n).value.value.enteredAt == run[m].at
    decreases n
  {
    if n > 0 {
      var last := n - 1;
      LastEnteredIff(run, last);
      AnswerKinds(run, last);
      forall m: nat | LastEntered(run, n, m) && m != last ensures LastEntered(run, last, m) && !EntersAt(run, last) {
      }
      if EntersAt(run, last) {
        assert LastEntered(run, n, last);
      } else if m: nat :| LastEntered(run, last, m) {
        assert LastEntered(run, n, m);
      }
    }
  }

  predicate TooUnsure(r: Reading) {
    r.policy.entryConfidenceMin > 0.0 && (r.confidence.None? || r.confidence.value < r.policy.entryConfidenceMin)
  }

  /** The zone last reported is still leased at reading n and still known. */
  ghost predicate ZoneKnown(run: seq<Reading>, n: nat, m: nat) {
    Standing(run, n, m) && n < |run| && run[n].at < run[m].at + Lease(run, m) && AnswerAt(run, m).zone in run[n].zones
  }

  lemma KnownIsCurrent(run: seq<Reading>, n: nat)
    requires n < |run|
    ensures Current(Before(run, n), run[n]).Some? <==> exists m: nat :: ZoneKnown(run, n, m)
    ensures forall m: nat :: ZoneKnown(run, n, m) ==>
                               Current(Before(run, n), run[n]) == Some(run[n].zones[AnswerAt(run, m).zone])
  {
    StandingIff(run, n);
    if Current(Before(run, n), run[n]).Some? {
      var m: nat :| Standing(run, n, m);
      assert ZoneKnown(run, n, m);
    }
  }

  /** A reading is rejected exactly if it is too unsure or the zone held has lost its position or its policy. */
  lemma RejectedIff(run: seq<Reading>, n: nat)
    requires n < |run|
    ensures AnswerAt(run, n) == Rejected <==>
            TooUnsure(run[n]) ||
            exists m: nat :: ZoneKnown(run, n, m) &&
                             var z := run[n].zones[AnswerAt(run, m).zone]; z.position.None? || z.policy.None?
  {
    KnownIsCurrent(run, n);
  }

  /** Not confirmed, since reading c, for longer than the exit grace or the stale time. */
  predicate Unconfirmed(run: seq<Reading>, n: nat, c: nat, p: Policy)
    requires c < |run| && n < |run|
  {
    run[n].at - run[c].at > p.exitGrace || run[n].at - run[c].at > p.staleTtl
  }

  /** The dwell since entry e is over and the candidate lies beyond the boundary grace. */
  predicate MayLeave(run: seq<Reading>, n: nat, e: nat, zone: Zone, p: Policy)
    requires e < |run| && n < |run|
  {
    run[n].at - run[e].at >= p.minDwell && !WithinBoundaryGrace(zone, p, run[n].candidate, run[n].policy)
  }

  /** The same for one reading on a stored state. */
  lemma OtherZone(st: State, r: Reading, zone: Zone)
    requires Resolve(st, r).1.Reported? && Current(st, r) == Some(zone) && st.value.value.zone != r.candidate.id
    ensures var s := st.value.value;
            && zone.policy.Some?
            && Resolve(st, r).1 ==
               var p := zone.policy.value;
               if || r.at - s.confirmedAt > p.exitGrace || r.at - s.confirmedAt > p.staleTtl
                  || (r.at - s.enteredAt >= p.minDwell && !WithinBoundaryGrace(zone, p, r.candidate, r.policy))
               then Reported(r.candidate.id, false) else Reported(s.zone, true)
  {
  }

  lemma HeldTimes(run: seq<Reading>, n: nat, m: nat, e: nat, c: nat)
    requires n < |run| && ZoneKnown(run, n, m) && LastEntered(run, n, e) && LastConfirmed(run, n, c)
    ensures Current(Before(run, n), run[n]) == Some(run[n].zones[AnswerAt(run, m).zone])
    ensures Before(run, n).value.value == Resolution(AnswerAt(run, m).zone, run[e].at, run[c].at)
  {
    KnownIsCurrent(run, n);
    StandingIff(run, n);
    LastEnteredIff(run, n);
    LastConfirmedIff(run, n);
  }

  /**
   A reading of another zone than the one held is answered with that zone if and only if the zone
   held went too long without confirmation, or its dwell since entry is over and the other zone
   lies beyond the boundary grace; otherwise the zone held is reported as sticky.
   */
  lemma LeavesIff(run: seq<Reading>, n: nat, m: nat, e: nat, c: nat)
    requires n < |run| && AnswerAt(run, n).Reported? && ZoneKnown(run, n, m)
    requires LastEntered(run, n, e) && LastConfirmed(run, n, c) && run[n].candidate.id != AnswerAt(run, m).zone
    ensures var zone := run[n].zones[AnswerAt(run, m).zone];
            && zone.policy.Some?
            && AnswerAt(run, n) ==
               if Unconfirmed(run, n, c, zone.policy.value) || MayLeave(run, n, e, zone, zone.policy.value)
               then Reported(run[n].candidate.id, false) else Reported(AnswerAt(run, m).zone, true)
  {
    HeldTimes(run, n, m, e, c);
    OtherZone(Before(run, n), run[n], run[n].zones[AnswerAt(run, m).zone]);
  }

  /** Every zone held was entered and confirmed at some reading. */
  lemma HeldSince(run: seq<Reading>, n: nat, m: nat) returns (e: nat, c: nat)
    requires Standing(run, n, m)
    ensures LastEntered(run, n, e) && LastConfirmed(run, n, c) && e <= c <= m
  {
    StandingIff(run, n);
    LastEnteredIff(run, n);
    LastConfirmedIff(run, n);
    e :| LastEntered(run, n, e);
    c :| LastConfirmed(run, n, c);
  }

  /** A reading of the zone held, or with none held, is answered with the zone it names. */
  lemma NamedZoneReported(run: seq<Reading>, n: nat)
    requires n < |run| && AnswerAt(run, n).Reported?
    requires forall m: nat :: ZoneKnown(run, n, m) ==> run[n].candidate.id == AnswerAt(run, m).zone
    ensures AnswerAt(run, n) == Reported(run[n].candidate.id, false)
  {
    KnownIsCurrent(run, n);
    StandingIff(run, n);
    if Current(Before(run, n), run[n]).Some? {
      var m: nat :| ZoneKnown(run, n, m);
    }
  }

  /** Within the boundary grace: no farther apart than the radii and the greater grace, d being the distance. */
  lemma BoundaryIff(a: Zone, pa: Policy, b: Zone, pb: Policy, d: real)
    requires a.position.Some? && b.position.Some?
    requires d >= 0.0 && Product(d, d) == DistSq(a.position.value, b.position.value)
    ensures var radii := (if a.radius.Some? then a.radius.value else pa.fallbackRadius) +
                         (if b.radius.Some? then b.radius.value else pb.fallbackRadius);
            WithinBoundaryGrace(a, pa, b, pb) <==> d <= radii + pa.boundaryGrace || d <= radii + pb.boundaryGrace
  {
    var margin := if pa.boundaryGrace > pb.boundaryGrace then pa.boundaryGrace else pb.boundaryGrace;
    var reach := ZoneRadius(a, pa) + ZoneRadius(b, pb) + margin;
    if reach >= 0.0 {
      if d > reach {
        SquareGrows(d, reach);
      } else if d < reach {
        SquareGrows(reach, d);
      }
    }
  }
}
