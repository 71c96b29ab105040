/**
 Fence evaluation end to end: candidates from the index, containment from the geometry,
 and the engine over the memberships. For every pair the steps and events are those of a
 plain scan.
 */
module FencePipeline {
  import opened Wrappers
  import opened Sequences
  import opened ProcessingState
  import opened FenceRules
  import Engine = FenceEngine
  import Geometry = RingGeometry
  import Index = FenceIndex

  type Fence = Index.Fence

  /** One location as the engine meets it: where it is, when, and under which policies and fences. */
  datatype Occasion = Occasion(
    fences: seq<Fence>,
    key: string,
    location: Index.Location,
    point: Geometry.Point,
    outside: (Fence, Geometry.Point) -> real,
    now: Time,
    ttl: Time,
    policy: Pair -> Policy)

  function Find(fences: seq<Fence>, id: string): Option<Fence> {
    if fences == [] then None
    else if fences[|fences| - 1].id == id then Some(fences[|fences| - 1])
    else Find(fences[..|fences| - 1], id)
  }

  ghost predicate UniqueIds(fences: seq<Fence>) {
    forall f, g :: f in fences && g in fences && f.id == g.id ==> f == g
  }

  lemma {:induction false} FindIs(fences: seq<Fence>, f: Fence)
    requires UniqueIds(fences) && f in fences
    ensures Find(fences, f.id) == Some(f)
  {
    var last := fences[|fences| - 1];
    assert last in fences;
    if last.id != f.id {
      assert f in fences[..|fences| - 1];
      FindIs(fences[..|fences| - 1], f);
    }
  }

  lemma {:induction false} FoundIn(fences: seq<Fence>, id: string)
    requires Find(fences, id).Some?
    ensures Find(fences, id).value in fences && Find(fences, id).value.id == id
  {
    if fences[|fences| - 1].id != id {
      FoundIn(fences[..|fences| - 1], id);
    }
  }

  function Ids(fences: seq<Fence>): set<string> {
    set f | f in fences :: f.id
  }

  function ContainmentOf(o: Occasion, f: Fence): Containment {
    Containment(Index.Contains(f, o.point), o.outside(f, o.point))
  }

  /** What the engine is handed for a list of candidates. */
  function SceneOf(o: Occasion, candidates: seq<Fence>): Engine.Scene {
    Engine.Scene(
      o.now, o.ttl,
      map id | id in Ids(candidates) && Find(o.fences, id).Some? :: ContainmentOf(o, Find(o.fences, id).value),
      map id | id in Ids(o.fences) && Find(o.fences, id).Some? ::
        Engine.Known(ContainmentOf(o, Find(o.fences, id).value),
                     Index.FloorMatches(Find(o.fences, id).value, o.location)),
      o.policy)
  }

  // ---------------------------------------------------------------------------
  // Tolerance is nearness
  // ---------------------------------------------------------------------------

  ghost predicate HasEdges(ring: Geometry.Ring) {
    exists i :: 0 <= i < |ring| && Geometry.HasEdge(ring, i)
  }

  /** The fence can be measured: a circle, or an outer ring with an edge. */
  ghost predicate Measurable(f: Fence) {
    match f.region
    case PointRegion(_) => true
    case PolygonRegion(rings) => rings != [] && HasEdges(rings[0])
    case UnreadableRegion => false
  }

  /** d is the distance from p to the fence, as the containment test reports it; without an edge it reports zero. */
  ghost predicate MeasuresOutside(f: Fence, p: Geometry.Point, d: real) {
    if !Measurable(f) then d == 0.0
    else match f.region
      case PointRegion(c) =>
        var distance := d + Index.Radius(f);
        distance >= 0.0 && Geometry.Product(distance, distance) == Geometry.DistSq(p, c)
      case PolygonRegion(rings) => d >= 0.0 && Geometry.NearestSq(p, rings[0], |rings[0]|, Geometry.Product(d, d))
  }

  /** Some point of the ring, or of the disc grown by the tolerance, is that near. */
  ghost predicate Near(f: Fence, p: Geometry.Point, tolerance: real) {
    match f.region
    case PointRegion(c) =>
      var reach := Index.Radius(f) + tolerance;
      reach >= 0.0 && Geometry.DistSq(p, c) <= Geometry.Product(reach, reach)
    case PolygonRegion(rings) => rings != [] && NearRing(rings[0], p, tolerance)
    case UnreadableRegion => false
  }

  ghost predicate NearRing(ring: Geometry.Ring, p: Geometry.Point, tolerance: real) {
    exists i, t :: 0 <= i < |ring| && Geometry.HasEdge(ring, i) && 0.0 <= t <= 1.0 &&
      Geometry.DistSq(p, Geometry.Along(ring[Geometry.Prev(ring, i)].value, ring[i].value, t)) <=
      Geometry.Product(tolerance, tolerance)
  }

  /** Distances compare like their squares. */
  lemma SquaresCompare(u: real, r: real)
    requires u >= 0.0 && r >= 0.0
    ensures u <= r <==> Geometry.Product(u, u) <= Geometry.Product(r, r)
  {
    if u < r {
      Geometry.SquareGrows(r, u);
    } else if r < u {
      Geometry.SquareGrows(u, r);
    }
  }

  lemma RingNearness(ring: Geometry.Ring, p: Geometry.Point, d: real, tolerance: real)
    requires d >= 0.0 && tolerance >= 0.0 && Geometry.NearestSq(p, ring, |ring|, Geometry.Product(d, d))
    ensures d <= tolerance <==> NearRing(ring, p, tolerance)
  {
    SquaresCompare(d, tolerance);
  }

  lemma CircleNearness(p: Geometry.Point, c: Geometry.Point, r: real, d: real, tolerance: real)
    requires d + r >= 0.0 && Geometry.Product(d + r, d + r) == Geometry.DistSq(p, c)
    ensures d <= tolerance <==>
            r + tolerance >= 0.0 && Geometry.DistSq(p, c) <= Geometry.Product(r + tolerance, r + tolerance)
  {
    if r + tolerance >= 0.0 {
      SquaresCompare(d + r, r + tolerance);
    }
  }

  /**
   A location outside a fence is within the exit tolerance exactly when some point of the
   ring, or the disc, is that near; a fence that cannot be measured always counts as near.
   */
  lemma ToleranceIsNearness(o: Occasion, f: Fence, policy: Policy)
    requires MeasuresOutside(f, o.point, o.outside(f, o.point))
    ensures InTolerance(ContainmentOf(o, f), policy) <==>
            && !Index.Contains(f, o.point) && policy.exitTolerance > 0.0
            && (Measurable(f) ==> Near(f, o.point, policy.exitTolerance))
  {
    var d := o.outside(f, o.point);
    if policy.exitTolerance > 0.0 && Measurable(f) {
      match f.region {
        case PointRegion(c) => CircleNearness(o.point, c, Index.Radius(f), d, policy.exitTolerance);
        case PolygonRegion(rings) => RingNearness(rings[0], o.point, d, policy.exitTolerance);
      }
    }
  }

  // ---------------------------------------------------------------------------
  // Index and scan give the same steps
  // ---------------------------------------------------------------------------

  /** The candidates a scan of the boxed fences of the scope would hand over. */
  ghost predicate Scanned(o: Occasion, f: Fence) {
    f in o.fences && Index.ScopeTest(o.key)(f) && Index.FloorMatches(f, o.location)
  }

  /** The candidates the index hands over. */
  ghost predicate FromIndex(o: Occasion, candidates: seq<Fence>) {
    && (forall f :: f in candidates ==> Scanned(o, f))
    && (forall f :: Scanned(o, f) && Index.Contains(f, o.point) && !Index.Escapes(f, o.point) ==> f in candidates)
  }

  ghost predicate FromScan(o: Occasion, candidates: seq<Fence>) {
    forall f :: f in candidates <==> Scanned(o, f)
  }

  ghost predicate SameStep(s: Step, t: Step) {
    forall st :: PairStep(st, s) == PairStep(st, t)
  }

  /** A fence that does not contain the location may as well be a candidate or not. */
  lemma OutsideLooksAlike(at: Time, c: Containment, policy: Policy, ttl: Time)
    requires !c.inside
    ensures SameStep(Step.Call(at, Elsewhere(c, true), policy, ttl), Step.Call(at, Candidate(c), policy, ttl))
  {
  }

  lemma InIds(fences: seq<Fence>, all: seq<Fence>, id: string)
    requires UniqueIds(all) && forall f :: f in fences ==> f in all
    ensures id in Ids(fences) <==> Find(all, id).Some? && Find(all, id).value in fences
  {
    if id in Ids(fences) {
      var f :| f in fences && f.id == id;
      FindIs(all, f);
    }
    if Find(all, id).Some? {
      FoundIn(all, id);
    }
  }

  /** The fence accepts the location outside its own box. */
  ghost predicate Slips(o: Occasion, id: string) {
    var f := Find(o.fences, id);
    f.Some? && Scanned(o, f.value) && Index.Contains(f.value, o.point) && Index.Escapes(f.value, o.point)
  }

  /** In a scope whose boxed rings are well ended no fence slips. */
  lemma NoneSlips(o: Occasion, id: string)
    requires forall f :: f in o.fences && Index.ScopeTest(o.key)(f) ==> Index.WellEnded(f)
    ensures !Slips(o, id)
  {
    if Slips(o, id) {
      var f := Find(o.fences, id).value;
      var b :| Index.IsBoxOf(f, b) && !Geometry.InBox(o.point, b);
      Index.ContainedInBox(f, o.point, b);
    }
  }

  /** Index and scan give every pair the same step, unless its fence slips through the index. */
  lemma StepsAgree(o: Occasion, indexed: seq<Fence>, scanned: seq<Fence>, p: Pair)
    requires UniqueIds(o.fences) && FromIndex(o, indexed) && FromScan(o, scanned) && !Slips(o, p.1)
    ensures SameStep(Engine.StepOf(SceneOf(o, indexed), p), Engine.StepOf(SceneOf(o, scanned), p))
  {
    var id := p.1;
    InIds(indexed, o.fences, id);
    InIds(scanned, o.fences, id);
    InIds(o.fences, o.fences, id);
    if id in Ids(scanned) && id !in Ids(indexed) {
      var f := Find(o.fences, id).value;
      OutsideLooksAlike(o.now, ContainmentOf(o, f), o.policy(p), o.ttl);
    }
  }

  /** The index hands over every containing fence that does not slip, and only fences of the scan. */
  lemma IndexHandsOver(o: Occasion, indexes: map<string, seq<Index.Entry>>, candidates: seq<Index.Entry>)
    requires Index.IndexOf(indexes, o.fences)
    requires multiset(candidates) ==
             multiset(Filter(Filter(Index.At(indexes, o.key), Index.BoxTest(o.point)), Index.FloorTest(o.location)))
    ensures FromIndex(o, Index.Fences(candidates))
  {
    var bucket, fs := Index.At(indexes, o.key), Index.Fences(candidates);
    assert Index.BucketOf(bucket, o.fences, o.key);
    forall f | f in fs ensures Scanned(o, f) {
      var i :| 0 <= i < |candidates| && candidates[i].fence == f;
      CandidateEntry(o, bucket, candidates, candidates[i]);
      BucketFence(o, bucket, candidates[i]);
    }
    forall f | Scanned(o, f) && Index.Contains(f, o.point) && !Index.Escapes(f, o.point) ensures f in fs {
      var e := BucketEntry(o, bucket, f);
      CandidateEntry(o, bucket, candidates, e);
      var i :| 0 <= i < |candidates| && candidates[i] == e;
      assert fs[i] == f;
    }
  }

  lemma CandidateEntry(o: Occasion, bucket: seq<Index.Entry>, candidates: seq<Index.Entry>, e: Index.Entry)
    requires multiset(candidates) ==
             multiset(Filter(Filter(bucket, Index.BoxTest(o.point)), Index.FloorTest(o.location)))
    ensures e in candidates <==>
            e in bucket && Geometry.InBox(o.point, e.rect) && Index.FloorMatches(e.fence, o.location)
  {
    FilterMember(Filter(bucket, Index.BoxTest(o.point)), Index.FloorTest(o.location), e);
    FilterMember(bucket, Index.BoxTest(o.point), e);
    assert e in candidates <==> e in multiset(candidates);
    var hits := Filter(Filter(bucket, Index.BoxTest(o.point)), Index.FloorTest(o.location));
    assert e in hits <==> e in multiset(hits);
  }

  lemma BucketFence(o: Occasion, bucket: seq<Index.Entry>, e: Index.Entry)
    requires Index.BucketOf(bucket, o.fences, o.key) && e in bucket
    ensures e.fence in o.fences && Index.ScopeTest(o.key)(e.fence)
  {
    var i :| 0 <= i < |bucket| && bucket[i] == e;
    assert Index.Fences(bucket)[i] == e.fence;
    FilterMember(o.fences, Index.ScopeTest(o.key), e.fence);
  }

  lemma BucketEntry(o: Occasion, bucket: seq<Index.Entry>, f: Fence) returns (e: Index.Entry)
    requires Index.BucketOf(bucket, o.fences, o.key) && f in o.fences && Index.ScopeTest(o.key)(f)
    ensures e in bucket && e.fence == f && Index.IsBoxOf(f, e.rect)
  {
    FilterMember(o.fences, Index.ScopeTest(o.key), f);
    var i :| 0 <= i < |Index.Fences(bucket)| && Index.Fences(bucket)[i] == f;
    e := bucket[i];
  }

  // ---------------------------------------------------------------------------
  // One location through the pipeline
  // ---------------------------------------------------------------------------

  function ScannedTest(o: Occasion): Fence -> bool {
    (f: Fence) => Index.ScopeTest(o.key)(f) && Index.FloorMatches(f, o.location)
  }

  /** The boxed fences of the scope that match the floor, without looking at any box. */
  function ScanCandidates(o: Occasion): seq<Fence> {
    Filter(o.fences, ScannedTest(o))
  }

  lemma ScanIsScan(o: Occasion)
    ensures FromScan(o, ScanCandidates(o))
  {
    forall f ensures f in ScanCandidates(o) <==> Scanned(o, f) {
      FilterMember(o.fences, ScannedTest(o), f);
    }
  }

  lemma {:induction false} RepeatAgrees(st: PairState, s: Step, t: Step, k: nat)
    requires SameStep(s, t)
    ensures Engine.Repeat(st, s, k) == Engine.Repeat(st, t, k)
    decreases k
  {
    if k > 0 {
      RepeatAgrees(st, s, t, k - 1);
    }
  }

  lemma RepeatedAgrees(o: Occasion, indexed: seq<Fence>, m0: Engine.Memberships, m: Engine.Memberships,
                       added: seq<Engine.FenceEvent>, p: Pair, k: nat)
    requires UniqueIds(o.fences) && FromIndex(o, indexed) && !Slips(o, p.1)
    requires Engine.Repeated(m0, m, added, SceneOf(o, indexed), p, k)
    ensures Engine.Repeated(m0, m, added, SceneOf(o, ScanCandidates(o)), p, k)
  {
    ScanIsScan(o);
    StepsAgree(o, indexed, ScanCandidates(o), p);
    RepeatAgrees(Engine.Stored(m0, p), Engine.StepOf(SceneOf(o, indexed), p),
                 Engine.StepOf(SceneOf(o, ScanCandidates(o)), p), k);
  }

  /**
   Candidates from the index, then the engine: for every pair whose fence does not slip,
   the steps and events of a scan.
   */
  method PublishLocation(engine: Engine.FenceEngine, o: Occasion, indexes: map<string, seq<Index.Entry>>,
                         byId: map<string, Index.Zone>, byForeign: map<string, Index.Zone>, trackables: seq<string>)
    requires Index.IndexOf(indexes, o.fences) && UniqueIds(o.fences)
    requires o.location.position == Some(o.point) && Index.LocationScopeKey(byId, byForeign, o.location) == Some(o.key)
    modifies engine
    ensures old(engine.events) <= engine.events
    ensures forall p: Pair :: !Slips(o, p.1) ==>
              Engine.Repeated(old(engine.memberships), engine.memberships, engine.events[|old(engine.events)|..],
                              SceneOf(o, ScanCandidates(o)), p, Engine.Count(trackables, p.0))
  {
    var candidates := Index.FenceCandidates(indexes, byId, byForeign, o.location);
    IndexHandsOver(o, indexes, candidates);
    engine.PublishFenceEvents(trackables, SceneOf(o, Index.Fences(candidates)));
    forall p: Pair | !Slips(o, p.1)
      ensures Engine.Repeated(old(engine.memberships), engine.memberships, engine.events[|old(engine.events)|..],
                              SceneOf(o, ScanCandidates(o)), p, Engine.Count(trackables, p.0))
    {
      RepeatedAgrees(o, Index.Fences(candidates), old(engine.memberships), engine.memberships,
                     engine.events[|old(engine.events)|..], p, Engine.Count(trackables, p.0));
    }
  }
}
