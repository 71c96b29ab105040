/**
 The bounding-box fence index of the metadata cache. Looking up candidates by scope, box
 and floor and then testing containment must return what a plain scan of all fences in
 the scope returns. Coordinate-reference and zone strings are held already trimmed.
 */
module FenceIndex {
  import opened Wrappers
  import opened Sequences
  import opened RingGeometry
  import Metadata = MetadataCache

  datatype Region =
    | PointRegion(center: Point)
    | PolygonRegion(rings: seq<Ring>)
    | UnreadableRegion

  datatype Fence = Fence(
    id: string,
    region: Region,
    radius: Option<real>,
    crs: Option<string>,
    zoneId: Option<string>,
    floor: Option<real>)

  datatype Location = Location(
    position: Option<Point>,
    crs: Option<string>,
    source: string,
    floor: Option<real>)

  type Zone = Metadata.Zone

  // ---------------------------------------------------------------------------
  // Containment
  // ---------------------------------------------------------------------------

  function Radius(f: Fence): real {
    if f.radius.Some? then f.radius.value else 0.0
  }

  /** distance <= radius, on squares. */
  predicate InCircle(p: Point, center: Point, radius: real) {
    radius >= 0.0 && DistSq(p, center) <= Product(radius, radius)
  }

  /** Only the outer ring counts; an unreadable or empty region contains nothing. */
  predicate Contains(f: Fence, p: Point) {
    match f.region
    case PointRegion(center) => InCircle(p, center, Radius(f))
    case PolygonRegion(rings) => rings != [] && rings[0] != [] && InRing(p, rings[0])
    case UnreadableRegion => false
  }

  // ---------------------------------------------------------------------------
  // Scopes and floors
  // ---------------------------------------------------------------------------

  function FenceScopeKey(f: Fence): Option<string> {
    var crs := if f.crs.None? || f.crs.value == "" then "EPSG:4326" else f.crs.value;
    if crs == "local" then
      if f.zoneId.None? || f.zoneId.value == "" then None else Some("local:" + f.zoneId.value)
    else Some("crs:" + crs)
  }

  function LocationScopeKey(byId: map<string, Zone>, byForeign: map<string, Zone>, loc: Location): Option<string> {
    var crs := if loc.crs.None? then "" else loc.crs.value;
    var zone := Metadata.FindZone(byId, byForeign, loc.source);
    if crs == "" then
      if zone.Some? then Some("local:" + zone.value.id) else Some("crs:EPSG:4326")
    else if crs == "local" then
      if zone.Some? then Some("local:" + zone.value.id) else None
    else Some("crs:" + crs)
  }

  predicate FloorMatches(f: Fence, loc: Location) {
    loc.floor.None? || f.floor.None? || f.floor.value == loc.floor.value
  }

  /** Without a reference system, or an empty one, a fence is given in WGS 84. */
  predicate Geographic(f: Fence) {
    f.crs.None? || f.crs.value == "" || f.crs.value == "EPSG:4326"
  }

  predicate LocalTo(f: Fence, zone: string) {
    f.crs == Some("local") && f.zoneId == Some(zone) && zone != ""
  }

  /** A fence is looked up for a location. */
  predicate SharesScope(byId: map<string, Zone>, byForeign: map<string, Zone>, f: Fence, loc: Location) {
    LocationScopeKey(byId, byForeign, loc).Some? && FenceScopeKey(f) == LocationScopeKey(byId, byForeign, loc)
  }

  lemma PrefixApart(a: string, b: string)
    ensures "local:" + a != "crs:" + b
    ensures "local:" + a == "local:" + b <==> a == b
    ensures "crs:" + a == "crs:" + b <==> a == b
  {
    assert ("local:" + a)[0] == 'l' && ("crs:" + b)[0] == 'c';
    assert ("local:" + a)[6..] == a && ("local:" + b)[6..] == b;
    assert ("crs:" + a)[4..] == a && ("crs:" + b)[4..] == b;
  }

  lemma FenceScopeIs(f: Fence, crs: string)
    requires crs != ""
    ensures FenceScopeKey(f) == Some("crs:" + crs) <==>
            crs != "local" && (f.crs == Some(crs) || (crs == "EPSG:4326" && Geographic(f)))
  {
    PrefixApart(if f.zoneId.Some? then f.zoneId.value else "", crs);
    PrefixApart(if f.crs.None? || f.crs.value == "" then "EPSG:4326" else f.crs.value, crs);
  }

  lemma FenceLocalIs(f: Fence, zone: string)
    ensures FenceScopeKey(f) == Some("local:" + zone) <==> LocalTo(f, zone)
  {
    PrefixApart(zone, if f.crs.None? || f.crs.value == "" then "EPSG:4326" else f.crs.value);
    PrefixApart(if f.zoneId.Some? then f.zoneId.value else "", zone);
  }

  /**
   Which fences a location meets: with a named reference system those given in it; otherwise
   those local to the zone that its source names; and if there is no such zone, the geographic
   ones for a location without reference system and none for a local one.
   */
  lemma ScopeIff(byId: map<string, Zone>, byForeign: map<string, Zone>, f: Fence, loc: Location)
    ensures var zone := Metadata.FindZone(byId, byForeign, loc.source);
            var unnamed := loc.crs.None? || loc.crs.value == "";
            && (!unnamed && loc.crs != Some("local") ==>
                  (SharesScope(byId, byForeign, f, loc) <==>
                   f.crs == loc.crs || (loc.crs == Some("EPSG:4326") && Geographic(f))))
            && ((unnamed || loc.crs == Some("local")) && zone.Some? ==>
                  (SharesScope(byId, byForeign, f, loc) <==> LocalTo(f, zone.value.id)))
            && (unnamed && zone.None? ==> (SharesScope(byId, byForeign, f, loc) <==> Geographic(f)))
            && (loc.crs == Some("local") && zone.None? ==> !SharesScope(byId, byForeign, f, loc))
  {
    assert "crs:EPSG:4326" == "crs:" + "EPSG:4326";
    var zone := Metadata.FindZone(byId, byForeign, loc.source);
    FenceScopeIs(f, if loc.crs.None? || loc.crs.value == "" then "EPSG:4326" else loc.crs.value);
    FenceLocalIs(f, if zone.Some? then zone.value.id else "");
  }

  /** A fence and a location on different floors do not meet; one without a floor meets all floors. */
  lemma FloorsApart(f: Fence, loc: Location)
    ensures !FloorMatches(f, loc) <==> f.floor.Some? && loc.floor.Some? && f.floor != loc.floor
  {
  }

  /** A circle holds the points within its radius; a polygon those from which a ray meets its outer ring oddly often. */
  lemma ContainsIff(f: Fence, p: Point, d: real)
    requires f.region.PointRegion? ==> d >= 0.0 && Product(d, d) == DistSq(p, f.region.center)
    ensures f.region.PointRegion? ==> (Contains(f, p) <==> d <= if f.radius.Some? then f.radius.value else 0.0)
    ensures f.region.PolygonRegion? ==>
              (Contains(f, p) <==>
               f.region.rings != [] && var ring := f.region.rings[0]; |MetEdges(p, ring, |ring|)| % 2 == 1)
    ensures f.region.UnreadableRegion? ==> !Contains(f, p)
  {
    match f.region {
      case PointRegion(c) =>
        var r := Radius(f);
        if 0.0 <= r < d {
          SquareGrows(d, r);
        } else if d < r {
          SquareGrows(r, d);
        }
      case PolygonRegion(rings) =>
        if rings != [] {
          CrossingsAreMet(p, rings[0], |rings[0]|);
        }
      case UnreadableRegion =>
    }
  }

  // ---------------------------------------------------------------------------
  // Boxes
  // ---------------------------------------------------------------------------

  /** Fences that get a box: the tree rejects a rectangle with a side that is not positive. */
  predicate Indexable(f: Fence) {
    match f.region
    case PointRegion(_) => Radius(f) > 0.0
    case PolygonRegion(rings) => rings != [] && exists i :: 0 <= i < |rings[0]| && rings[0][i].Some?
    case UnreadableRegion => false
  }

  ghost predicate IsBoxOf(f: Fence, b: Box) {
    match f.region
    case PointRegion(c) =>
      b == Box(c.x - Radius(f), c.y - Radius(f), c.x + Radius(f), c.y + Radius(f))
    case PolygonRegion(rings) => rings != [] && Bounds(rings[0], b)
    case UnreadableRegion => false
  }

  method FenceBoundingRect(f: Fence) returns (r: Option<Box>)
    ensures r.Some? <==> Indexable(f)
    ensures r.Some? ==> IsBoxOf(f, r.value)
  {
    match f.region {
      case PointRegion(c) =>
        var radius := Radius(f);
        if radius * 2.0 <= 0.0 {
          return None;
        }
        return Some(Box(c.x - radius, c.y - radius, c.x - radius + radius * 2.0, c.y - radius + radius * 2.0));
      case PolygonRegion(rings) =>
        if |rings| == 0 || |rings[0]| == 0 {
          return None;
        }
        r := RingBoundingBox(rings[0]);
      case UnreadableRegion =>
        return None;
    }
  }

  /** The outer ring has no undecodable position, or its loose ends balance out. */
  predicate WellEnded(f: Fence) {
    f.region.PolygonRegion? && f.region.rings != [] ==> EndsBalanced(f.region.rings[0])
  }

  /** Whatever the containment test accepts lies in the fence's box. */
  lemma ContainedInBox(f: Fence, p: Point, b: Box)
    requires WellEnded(f) && IsBoxOf(f, b) && Contains(f, p)
    ensures InBox(p, b)
  {
    match f.region {
      case PointRegion(c) =>
        AxisWithinRadius(p.x - c.x, p.y - c.y, Radius(f));
        AxisWithinRadius(p.y - c.y, p.x - c.x, Radius(f));
      case PolygonRegion(rings) =>
        AcceptedInBox(p, rings[0], b);
    }
  }

  lemma {:induction false} NoEdgesNoCrossings(p: Point, ring: Ring, n: nat)
    requires n <= |ring| && forall i :: 0 <= i < |ring| ==> ring[i].None?
    ensures Crossings(p, ring, n) == 0
    decreases n
  {
    if n > 0 {
      NoEdgesNoCrossings(p, ring, n - 1);
    }
  }

  /** A circle of radius zero holds its centre and nothing else. */
  lemma ZeroCircle(p: Point, c: Point)
    ensures InCircle(p, c, 0.0) <==> p == c
  {
    assert Product(0.0, 0.0) == 0.0;
    if p != c {
      NormSqPositive(p.x - c.x, p.y - c.y);
    } else {
      assert p.x - c.x == 0.0 && p.y - c.y == 0.0;
    }
  }

  lemma UnindexedPolygon(ring: Ring, p: Point)
    requires InRing(p, ring)
    ensures exists i :: 0 <= i < |ring| && ring[i].Some?
  {
    if forall i :: 0 <= i < |ring| ==> ring[i].None? {
      NoEdgesNoCrossings(p, ring, |ring|);
    }
  }

  /** A circle of radius zero around p itself. */
  predicate HitAtCentre(f: Fence, p: Point) {
    f.region.PointRegion? && Radius(f) == 0.0 && p == f.region.center
  }

  /** A containing fence escapes the index only as a zero-radius circle hit at its very centre. */
  lemma UnindexedContaining(f: Fence, p: Point)
    ensures Contains(f, p) && !Indexable(f) <==> HitAtCentre(f, p)
  {
    match f.region {
      case PointRegion(c) => ZeroCircle(p, c);
      case PolygonRegion(rings) =>
        if Contains(f, p) {
          UnindexedPolygon(rings[0], p);
        }
      case UnreadableRegion =>
    }
  }

  // ---------------------------------------------------------------------------
  // The index
  // ---------------------------------------------------------------------------

  datatype Entry = Entry(fence: Fence, rect: Box)

  function Fences(entries: seq<Entry>): (fs: seq<Fence>)
    ensures |fs| == |entries|
  {
    seq(|entries|, i requires 0 <= i < |entries| => entries[i].fence)
  }

  function At(indexes: map<string, seq<Entry>>, key: string): seq<Entry> {
    if key in indexes then indexes[key] else []
  }

  // Named tests, so that the same filter is the same function everywhere.

  function ScopeTest(key: string): Fence -> bool {
    (f: Fence) => FenceScopeKey(f) == Some(key) && Indexable(f)
  }

  function BoxTest(p: Point): Entry -> bool {
    (e: Entry) => InBox(p, e.rect)
  }

  function FloorTest(loc: Location): Entry -> bool {
    (e: Entry) => FloorMatches(e.fence, loc)
  }

  function ContainsTest(p: Point): Entry -> bool {
    (e: Entry) => Contains(e.fence, p)
  }

  function FloorAndContainsTest(loc: Location, p: Point): Fence -> bool {
    (f: Fence) => FloorMatches(f, loc) && Contains(f, p)
  }

  /** One tree holds the boxed fences of its scope, each with its box. */
  ghost predicate BucketOf(bucket: seq<Entry>, fences: seq<Fence>, key: string) {
    && Fences(bucket) == Filter(fences, ScopeTest(key))
    && forall e :: e in bucket ==> IsBoxOf(e.fence, e.rect)
  }

  ghost predicate IndexOf(indexes: map<string, seq<Entry>>, fences: seq<Fence>) {
    forall key :: BucketOf(At(indexes, key), fences, key)
  }

  lemma FencesSnoc(entries: seq<Entry>, e: Entry)
    ensures Fences(entries + [e]) == Fences(entries) + [e.fence]
  {
  }

  /** One more fence joins the bucket of its scope if it has a box. */
  lemma BucketGrows(bucket: seq<Entry>, fences: seq<Fence>, f: Fence, rect: Option<Box>, key: string)
    requires BucketOf(bucket, fences, key) && (rect.Some? <==> Indexable(f)) && (rect.Some? ==> IsBoxOf(f, rect.value))
    ensures rect.Some? && FenceScopeKey(f) == Some(key) ==> BucketOf(bucket + [Entry(f, rect.value)], fences + [f], key)
    ensures !(rect.Some? && FenceScopeKey(f) == Some(key)) ==> BucketOf(bucket, fences + [f], key)
  {
    FilterSnoc(fences, f, ScopeTest(key));
    if rect.Some? {
      FencesSnoc(bucket, Entry(f, rect.value));
    }
  }

  method BuildFenceIndexes(fences: seq<Fence>) returns (indexes: map<string, seq<Entry>>)
    ensures IndexOf(indexes, fences)
  {
    indexes := map[];
    for n := 0 to |fences|
      invariant IndexOf(indexes, fences[..n])
    {
      var f := fences[n];
      var scope := FenceScopeKey(f);
      var rect := FenceBoundingRect(f);
      ghost var before := indexes;
      if scope.Some? && rect.Some? {
        indexes := indexes[scope.value := At(indexes, scope.value) + [Entry(f, rect.value)]];
      }
      assert fences[..n + 1] == fences[..n] + [f];
      forall key
        ensures BucketOf(At(indexes, key), fences[..n + 1], key)
      {
        assert BucketOf(At(before, key), fences[..n], key);
        BucketGrows(At(before, key), fences[..n], f, rect, key);
      }
    }
    assert fences[..|fences|] == fences;
  }

  /** The tree search: all entries whose closed box meets p, in no particular order. */
  method SearchIntersect(entries: seq<Entry>, p: Point) returns (hits: seq<Entry>)
    ensures multiset(hits) == multiset(Filter(entries, BoxTest(p)))
  {
    hits := [];
    for n := 0 to |entries|
      invariant multiset(hits) == multiset(Filter(entries[..n], BoxTest(p)))
    {
      assert entries[..n + 1] == entries[..n] + [entries[n]];
      FilterSnoc(entries[..n], entries[n], BoxTest(p));
      if InBox(p, entries[n].rect) {
        hits := [entries[n]] + hits;
      }
    }
    assert entries[..|entries|] == entries;
  }

  /** The candidates of a location: scope, then box, then floor. */
  method FenceCandidates(indexes: map<string, seq<Entry>>, byId: map<string, Zone>, byForeign: map<string, Zone>,
                         loc: Location) returns (candidates: seq<Entry>)
    ensures var key := LocationScopeKey(byId, byForeign, loc);
            if key.None? || loc.position.None? then candidates == []
            else multiset(candidates) ==
                 multiset(Filter(Filter(At(indexes, key.value), BoxTest(loc.position.value)), FloorTest(loc)))
  {
    candidates := [];
    var key := LocationScopeKey(byId, byForeign, loc);
    if key.Some? && key.value in indexes && loc.position.Some? {
      var results := SearchIntersect(indexes[key.value], loc.position.value);
      for n := 0 to |results|
        invariant candidates == Filter(results[..n], FloorTest(loc))
      {
        assert results[..n + 1] == results[..n] + [results[n]];
        FilterSnoc(results[..n], results[n], FloorTest(loc));
        if FloorMatches(results[n].fence, loc) {
          candidates := candidates + [results[n]];
        }
      }
      assert results[..|results|] == results;
      FilterBag(results, Filter(indexes[key.value], BoxTest(loc.position.value)), FloorTest(loc));
    }
  }

  /**
   The fences that contain a location, found through the index: what a scan finds, but for
   rings that accept the location outside their own box and circles of radius zero.
   */
  method FencesForLocation(indexes: map<string, seq<Entry>>, byId: map<string, Zone>, byForeign: map<string, Zone>,
                           loc: Location, ghost fences: seq<Fence>) returns (out: seq<Fence>)
    requires IndexOf(indexes, fences)
    ensures var key := LocationScopeKey(byId, byForeign, loc);
            if key.None? || loc.position.None? then out == []
            else
              multiset(Scan(fences, key.value, loc, loc.position.value)) ==
              multiset(out) + multiset(Escaped(fences, key.value, loc, loc.position.value)) +
              multiset(CentreHits(fences, key.value, loc, loc.position.value))
  {
    out := [];
    var candidates := FenceCandidates(indexes, byId, byForeign, loc);
    if loc.position.Some? {
      out := KeepContaining(candidates, loc.position.value);
      ghost var key := LocationScopeKey(byId, byForeign, loc);
      if key.Some? {
        IndexAgreesWithScan(indexes, fences, key.value, loc, loc.position.value, candidates);
        ScanSplits(fences, key.value, loc, loc.position.value);
      }
    }
  }

  lemma KeepStep(candidates: seq<Entry>, n: nat, p: Point)
    requires n < |candidates|
    ensures var kept, e := Fences(Filter(candidates[..n], ContainsTest(p))), candidates[n];
            Fences(Filter(candidates[..n + 1], ContainsTest(p))) ==
            if Contains(e.fence, p) then kept + [e.fence] else kept
  {
    assert candidates[..n + 1] == candidates[..n] + [candidates[n]];
    FilterSnoc(candidates[..n], candidates[n], ContainsTest(p));
    FencesSnoc(Filter(candidates[..n], ContainsTest(p)), candidates[n]);
  }

  method KeepContaining(candidates: seq<Entry>, p: Point) returns (out: seq<Fence>)
    ensures out == Fences(Filter(candidates, ContainsTest(p)))
  {
    out := [];
    for n := 0 to |candidates|
      invariant out == Fences(Filter(candidates[..n], ContainsTest(p)))
    {
      KeepStep(candidates, n, p);
      if Contains(candidates[n].fence, p) {
        out := out + [candidates[n].fence];
      }
    }
    assert candidates[..|candidates|] == candidates;
  }

  /** Scan the fences of a scope that get a box for floor and containment. */
  function BoxedScan(fences: seq<Fence>, key: string, loc: Location, p: Point): seq<Fence> {
    Filter(Filter(fences, ScopeTest(key)), FloorAndContainsTest(loc, p))
  }

  function Both(p: Fence -> bool, q: Fence -> bool): Fence -> bool {
    (f: Fence) => p(f) && q(f)
  }

  /** The fence is of the scope and matches the location's floor. */
  function MeetsTest(key: string, loc: Location): Fence -> bool {
    (f: Fence) => FenceScopeKey(f) == Some(key) && FloorMatches(f, loc)
  }

  function HoldsTest(p: Point): Fence -> bool {
    (f: Fence) => Contains(f, p)
  }

  function BoxableTest(): Fence -> bool {
    (f: Fence) => Indexable(f)
  }

  function HitAtCentreTest(p: Point): Fence -> bool {
    (f: Fence) => HitAtCentre(f, p)
  }

  /** The reference: scan every fence for scope, floor and containment. */
  function Scan(fences: seq<Fence>, key: string, loc: Location, p: Point): seq<Fence> {
    Filter(fences, Both(MeetsTest(key, loc), HoldsTest(p)))
  }

  /** Zero-radius circles that a location hits at the very centre. */
  function CentreHits(fences: seq<Fence>, key: string, loc: Location, p: Point): seq<Fence> {
    Filter(fences, Both(MeetsTest(key, loc), HitAtCentreTest(p)))
  }

  lemma HoldsSplit(f: Fence, p: Point)
    ensures HoldsTest(p)(f) && !BoxableTest()(f) <==> HitAtCentreTest(p)(f)
  {
    UnindexedContaining(f, p);
  }

  /** Fences that hold something split into those with a box and the others. */
  lemma FilterSplits(fences: seq<Fence>, meets: Fence -> bool, holds: Fence -> bool, boxable: Fence -> bool,
                     hit: Fence -> bool)
    requires forall f :: f in fences ==> (holds(f) && !boxable(f) <==> hit(f))
    ensures multiset(Filter(fences, Both(meets, holds))) ==
            multiset(Filter(fences, Both(Both(meets, holds), boxable))) + multiset(Filter(fences, Both(meets, hit)))
  {
    FilterUnion(fences, Both(Both(meets, holds), boxable), Both(meets, hit), Both(meets, holds));
  }

  lemma BoxedTests(f: Fence, key: string, loc: Location, p: Point)
    ensures Both(Both(MeetsTest(key, loc), HoldsTest(p)), BoxableTest())(f) <==>
            ScopeTest(key)(f) && FloorAndContainsTest(loc, p)(f)
  {
  }

  /** A scan finds what a scan of the boxed fences finds, and the zero-radius circles hit at their centre. */
  lemma ScanSplits(fences: seq<Fence>, key: string, loc: Location, p: Point)
    ensures multiset(Scan(fences, key, loc, p)) ==
            multiset(BoxedScan(fences, key, loc, p)) + multiset(CentreHits(fences, key, loc, p))
  {
    var meets, holds, boxable, hit := MeetsTest(key, loc), HoldsTest(p), BoxableTest(), HitAtCentreTest(p);
    forall f | f in fences ensures holds(f) && !boxable(f) <==> hit(f) {
      HoldsSplit(f, p);
    }
    FilterSplits(fences, meets, holds, boxable, hit);
    forall f | f in fences
      ensures Both(Both(meets, holds), boxable)(f) <==> ScopeTest(key)(f) && FloorAndContainsTest(loc, p)(f)
    {
      BoxedTests(f, key, loc, p);
    }
    FilterTwice(fences, ScopeTest(key), FloorAndContainsTest(loc, p), Both(Both(meets, holds), boxable));
  }

  // ---------------------------------------------------------------------------
  // Index and scan agree
  // ---------------------------------------------------------------------------

  lemma {:induction false} FencesMultiset(entries: seq<Entry>, hits: seq<Entry>)
    requires multiset(entries) == multiset(hits)
    ensures multiset(Fences(entries)) == multiset(Fences(hits))
    decreases |entries|
  {
    if entries == [] {
      assert |multiset(hits)| == 0;
    } else {
      var k := BagInit(entries, hits);
      var init, e := entries[..|entries| - 1], entries[|entries| - 1];
      FencesMultiset(init, hits[..k] + hits[k + 1..]);
      assert Fences(entries) == Fences(init) + [e.fence];
      RemoveAt(Fences(hits), k);
      assert Fences(hits[..k] + hits[k + 1..]) == Fences(hits)[..k] + Fences(hits)[k + 1..];
    }
  }

  /** The fence's own box misses p. */
  ghost predicate Escapes(f: Fence, p: Point) {
    exists b :: IsBoxOf(f, b) && !InBox(p, b)
  }

  ghost function EscapedTest(loc: Location, p: Point): Fence -> bool {
    (f: Fence) => FloorMatches(f, loc) && Contains(f, p) && Escapes(f, p)
  }

  /** Boxed fences of a scope that accept a location outside their box. */
  ghost function Escaped(fences: seq<Fence>, key: string, loc: Location, p: Point): seq<Fence> {
    Filter(Filter(fences, ScopeTest(key)), EscapedTest(loc, p))
  }

  lemma BoxUnique(f: Fence, b: Box, c: Box)
    requires IsBoxOf(f, b) && IsBoxOf(f, c)
    ensures b == c
  {
  }

  /** Of a scope whose boxed rings are well ended nothing escapes. */
  lemma WellEndedNothingEscapes(fences: seq<Fence>, key: string, loc: Location, p: Point)
    requires forall f :: f in fences && ScopeTest(key)(f) ==> WellEnded(f)
    ensures Escaped(fences, key, loc, p) == []
  {
    if Escaped(fences, key, loc, p) != [] {
      var f := Escaped(fences, key, loc, p)[0];
      FilterMember(Filter(fences, ScopeTest(key)), EscapedTest(loc, p), f);
      FilterMember(fences, ScopeTest(key), f);
      var b :| IsBoxOf(f, b) && !InBox(p, b);
      ContainedInBox(f, p, b);
    }
  }

  /** A boxed ring with loose ends that do not balance accepts some location outside its box. */
  lemma UnbalancedEscapes(fences: seq<Fence>, key: string, f: Fence) returns (loc: Location, p: Point)
    requires f in fences && ScopeTest(key)(f) && !WellEnded(f)
    ensures f in Escaped(fences, key, loc, p)
  {
    var ring := f.region.rings[0];
    var b := BoxExists(ring);
    var k :| 0 <= k < |ring| && ring[k].Some? && Dangling(ring, ring[k].value.y, |ring|) % 2 == 1;
    p := EscapesBox(ring, b, k);
    loc := Location(Some(p), None, "", None);
    assert IsBoxOf(f, b) && !InBox(p, b);
    FilterMember(fences, ScopeTest(key), f);
    FilterMember(Filter(fences, ScopeTest(key)), EscapedTest(loc, p), f);
  }

  /** Nothing escapes at any location of a scope exactly when every boxed ring of the scope is well ended. */
  lemma NothingEscapesIff(fences: seq<Fence>, key: string)
    ensures (forall loc, p :: Escaped(fences, key, loc, p) == []) <==>
            (forall f :: f in fences && ScopeTest(key)(f) ==> WellEnded(f))
  {
    if forall f :: f in fences && ScopeTest(key)(f) ==> WellEnded(f) {
      forall loc, p ensures Escaped(fences, key, loc, p) == [] {
        WellEndedNothingEscapes(fences, key, loc, p);
      }
    } else {
      var f :| f in fences && ScopeTest(key)(f) && !WellEnded(f);
      var loc, p := UnbalancedEscapes(fences, key, f);
      assert Escaped(fences, key, loc, p) != [];
    }
  }

  /** A test on fences that splits into a test on their entries and another on the fences. */
  lemma {:induction false} SplitFences(entries: seq<Entry>, h: Entry -> bool, x: Fence -> bool, g: Fence -> bool)
    requires forall e :: e in entries ==> (g(e.fence) <==> h(e) || x(e.fence)) && !(h(e) && x(e.fence))
    ensures multiset(Filter(Fences(entries), g)) ==
            multiset(Fences(Filter(entries, h))) + multiset(Filter(Fences(entries), x))
  {
    if entries != [] {
      var init, e := entries[..|entries| - 1], entries[|entries| - 1];
      assert e in entries && forall d :: d in init ==> d in entries;
      SplitFences(init, h, x, g);
      assert Fences(entries) == Fences(init) + [e.fence];
      FilterSnoc(Fences(init), e.fence, g);
      FilterSnoc(Fences(init), e.fence, x);
      FencesSnoc(Filter(init, h), e);
      assert (h(e) || x(e.fence)) == g(e.fence) && !(h(e) && x(e.fence));
    }
  }

  function HitTest(loc: Location, p: Point): Entry -> bool {
    (e: Entry) => InBox(p, e.rect) && FloorMatches(e.fence, loc) && Contains(e.fence, p)
  }

  /** The box test loses exactly what escapes. */
  lemma BoxTestLosesEscaped(entries: seq<Entry>, loc: Location, p: Point)
    requires forall e :: e in entries ==> IsBoxOf(e.fence, e.rect)
    ensures multiset(Filter(Fences(entries), FloorAndContainsTest(loc, p))) ==
            multiset(Fences(Filter(entries, HitTest(loc, p)))) + multiset(Filter(Fences(entries), EscapedTest(loc, p)))
  {
    forall e | e in entries ensures Escapes(e.fence, p) <==> !InBox(p, e.rect) {
      if Escapes(e.fence, p) {
        var b :| IsBoxOf(e.fence, b) && !InBox(p, b);
        BoxUnique(e.fence, b, e.rect);
      }
    }
    SplitFences(entries, HitTest(loc, p), EscapedTest(loc, p), FloorAndContainsTest(loc, p));
  }

  /** Testing the candidates finds what a scan of the boxed fences finds, but for what escapes. */
  lemma IndexAgreesWithScan(indexes: map<string, seq<Entry>>, fences: seq<Fence>, key: string, loc: Location,
                            p: Point, candidates: seq<Entry>)
    requires IndexOf(indexes, fences)
    requires multiset(candidates) == multiset(Filter(Filter(At(indexes, key), BoxTest(p)), FloorTest(loc)))
    ensures multiset(BoxedScan(fences, key, loc, p)) ==
            multiset(Fences(Filter(candidates, ContainsTest(p)))) + multiset(Escaped(fences, key, loc, p))
  {
    var entries := At(indexes, key);
    assert BucketOf(entries, fences, key);
    var direct := Filter(Filter(entries, BoxTest(p)), FloorTest(loc));
    FilterBag(candidates, direct, ContainsTest(p));
    FencesMultiset(Filter(candidates, ContainsTest(p)), Filter(direct, ContainsTest(p)));
    FilterThrice(entries, BoxTest(p), FloorTest(loc), ContainsTest(p), HitTest(loc, p));
    BoxTestLosesEscaped(entries, loc, p);
  }
}
