/**
 Fence geometry: even-odd ray casting over a linear ring, its bounding box and the
 distance from a point to the ring. Coordinates are exact reals; a position that does
 not decode is `None` and every loop skips the edges that touch it.
 */
module RingGeometry {
  import opened Wrappers

  datatype Point = Point(x: real, y: real)

  datatype Box = Box(minX: real, minY: real, maxX: real, maxY: real)

  type Ring = seq<Option<Point>>

  predicate InBox(p: Point, b: Box) {
    b.minX <= p.x <= b.maxX && b.minY <= p.y <= b.maxY
  }

  /** The cyclic predecessor of vertex i. */
  function Prev(ring: Ring, i: nat): (j: nat)
    requires i < |ring|
    ensures j < |ring|
  {
    if i == 0 then |ring| - 1 else i - 1
  }

  /** Edge i runs from vertex Prev(i) to vertex i and exists when both ends decode. */
  predicate HasEdge(ring: Ring, i: nat) {
    i < |ring| && ring[i].Some? && ring[Prev(ring, i)].Some?
  }

  // ---------------------------------------------------------------------------
  // Even-odd ray casting
  // ---------------------------------------------------------------------------

  /** Where the line through a and b meets height y. */
  function MeetX(y: real, a: Point, b: Point): real
    requires a.y != b.y
  {
    (b.x - a.x) * (y - a.y) / (b.y - a.y) + a.x
  }

  /** The ray from p towards +x crosses the edge between a and b. */
  predicate Crosses(p: Point, a: Point, b: Point) {
    (a.y > p.y) != (b.y > p.y) && p.x < MeetX(p.y, a, b)
  }

  function Crossings(p: Point, ring: Ring, n: nat): (c: nat)
    requires n <= |ring|
  {
    if n == 0 then 0 else
      Crossings(p, ring, n - 1) +
      if HasEdge(ring, n - 1) && Crosses(p, ring[n - 1].value, ring[Prev(ring, n - 1)].value) then 1 else 0
  }

  /** The even-odd rule: an odd number of crossed edges. */
  predicate InRing(p: Point, ring: Ring) {
    Crossings(p, ring, |ring|) % 2 == 1
  }

  lemma CrossingStep(p: Point, ring: Ring, i: nat)
    requires i < |ring|
    ensures Crossings(p, ring, i + 1) % 2 == 1 <==>
            ((Crossings(p, ring, i) % 2 == 1) !=
             (HasEdge(ring, i) && Crosses(p, ring[i].value, ring[Prev(ring, i)].value)))
  {
  }

  // The same rule in terms of the points of the ring: no formula for the meeting point.

  /** The point a fraction t of the way from a to b. */
  function Along(a: Point, b: Point, t: real): Point {
    Point(a.x + t * (b.x - a.x), a.y + t * (b.y - a.y))
  }

  /** One end of the edge lies above p, the other does not, and the edge has a point level with p to its right. */
  ghost predicate RayMeets(p: Point, a: Point, b: Point) {
    (a.y > p.y) != (b.y > p.y) &&
    exists t :: 0.0 <= t <= 1.0 && Along(a, b, t).y == p.y && p.x < Along(a, b, t).x
  }

  /** The edges of the ring that the ray from p towards +x meets. */
  ghost function MetEdges(p: Point, ring: Ring, n: nat): set<nat>
    requires n <= |ring|
  {
    set i: nat | i < n && HasEdge(ring, i) && RayMeets(p, ring[Prev(ring, i)].value, ring[i].value)
  }

  /** The meeting point is a point of the edge. */
  lemma MeetOnEdge(y: real, a: Point, b: Point) returns (t: real)
    requires (a.y > y) != (b.y > y)
    ensures 0.0 <= t <= 1.0 && Along(a, b, t) == Point(MeetX(y, a, b), y)
  {
    t := (y - a.y) / (b.y - a.y);
    UnitFraction(y - a.y, b.y - a.y);
    assert t * (b.y - a.y) == y - a.y;
    PortionIs(b.x - a.x, y - a.y, b.y - a.y, t);
  }

  /** ... and the only one at that height. */
  lemma MeetIsOnly(y: real, a: Point, b: Point, t: real)
    requires a.y != b.y && Along(a, b, t).y == y
    ensures Along(a, b, t).x == MeetX(y, a, b)
  {
    MeetFrom(y, a, b, t, b.x - a.x, y - a.y, b.y - a.y);
  }

  lemma AlongFrom(a: Point, b: Point, t: real, u: real, d: real)
    requires u == b.x - a.x && d == b.y - a.y
    ensures Along(a, b, t) == Point(a.x + t * u, a.y + t * d)
  {
  }

  lemma MeetFrom(y: real, a: Point, b: Point, t: real, u: real, n: real, d: real)
    requires u == b.x - a.x && n == y - a.y && d == b.y - a.y && d != 0.0 && Along(a, b, t).y == y
    ensures Along(a, b, t).x == MeetX(y, a, b)
  {
    AlongFrom(a, b, t, u, d);
    PortionIs(u, n, d, t);
    assert MeetX(y, a, b) == u * n / d + a.x;
  }

  lemma PortionIs(u: real, n: real, d: real, t: real)
    requires d != 0.0 && t * d == n
    ensures t * u == u * n / d
  {
    assert (t * u) * d == u * (t * d);
    QuotientIs(t * u, d, u * n);
  }

  lemma QuotientIs(t: real, d: real, n: real)
    requires d != 0.0 && t * d == n
    ensures t == n / d
  {
  }

  /** The formula of the loop tells exactly the edges that the ray meets. */
  lemma CrossesIff(p: Point, a: Point, b: Point)
    ensures Crosses(p, a, b) <==> RayMeets(p, a, b)
  {
    if Crosses(p, a, b) {
      var t := MeetOnEdge(p.y, a, b);
    }
    if RayMeets(p, a, b) {
      var t :| 0.0 <= t <= 1.0 && Along(a, b, t).y == p.y && p.x < Along(a, b, t).x;
      MeetIsOnly(p.y, a, b, t);
    }
  }

  /** An edge is met from either end. */
  lemma MetFromEitherEnd(p: Point, a: Point, b: Point)
    ensures RayMeets(p, a, b) <==> RayMeets(p, b, a)
  {
    if RayMeets(p, a, b) {
      Reversed(p, a, b);
    }
    if RayMeets(p, b, a) {
      Reversed(p, b, a);
    }
  }

  lemma Reversed(p: Point, a: Point, b: Point)
    requires RayMeets(p, a, b)
    ensures RayMeets(p, b, a)
  {
    var t :| 0.0 <= t <= 1.0 && Along(a, b, t).y == p.y && p.x < Along(a, b, t).x;
    Backwards(a.x, b.x, t);
    Backwards(a.y, b.y, t);
    assert Along(b, a, 1.0 - t) == Along(a, b, t);
  }

  lemma Backwards(u: real, v: real, t: real)
    ensures v + (1.0 - t) * (u - v) == u + t * (v - u)
  {
  }

  /** The loop counts a slot exactly if it has an edge that the ray meets. */
  lemma SlotMet(p: Point, ring: Ring, i: nat)
    requires HasEdge(ring, i)
    ensures Crosses(p, ring[i].value, ring[Prev(ring, i)].value) <==>
            RayMeets(p, ring[Prev(ring, i)].value, ring[i].value)
  {
    CrossesIff(p, ring[i].value, ring[Prev(ring, i)].value);
    MetFromEitherEnd(p, ring[i].value, ring[Prev(ring, i)].value);
  }

  lemma {:induction false} CrossingsAreMet(p: Point, ring: Ring, n: nat)
    requires n <= |ring|
    ensures Crossings(p, ring, n) == |MetEdges(p, ring, n)|
    decreases n
  {
    if n > 0 {
      CrossingsAreMet(p, ring, n - 1);
      var edges, last := MetEdges(p, ring, n - 1), n - 1;
      if HasEdge(ring, last) {
        SlotMet(p, ring, last);
      }
      assert MetEdges(p, ring, n) == edges || MetEdges(p, ring, n) == edges + {last};
    }
  }

  method PointInRing(p: Point, ring: Ring) returns (inside: bool)
    ensures inside <==> |MetEdges(p, ring, |ring|)| % 2 == 1
    ensures inside <==> InRing(p, ring)
  {
    inside := false;
    var j := |ring| - 1;
    for i := 0 to |ring|
      invariant j == if i == 0 then |ring| - 1 else i - 1
      invariant inside <==> Crossings(p, ring, i) % 2 == 1
    {
      CrossingStep(p, ring, i);
      if ring[i].Some? && ring[j].Some? {
        if Crosses(p, ring[i].value, ring[j].value) {
          inside := !inside;
        }
      }
      j := i;
    }
    CrossingsAreMet(p, ring, |ring|);
  }

  // ---------------------------------------------------------------------------
  // Bounding box
  // ---------------------------------------------------------------------------

  /** b contains the first n vertices and each of its sides touches one of them. */
  ghost predicate BoundsPrefix(ring: Ring, n: nat, b: Box)
    requires n <= |ring|
  {
    && (forall i :: 0 <= i < n && ring[i].Some? ==> InBox(ring[i].value, b))
    && (exists i :: 0 <= i < n && ring[i].Some? && ring[i].value.x == b.minX)
    && (exists i :: 0 <= i < n && ring[i].Some? && ring[i].value.x == b.maxX)
    && (exists i :: 0 <= i < n && ring[i].Some? && ring[i].value.y == b.minY)
    && (exists i :: 0 <= i < n && ring[i].Some? && ring[i].value.y == b.maxY)
  }

  ghost predicate Bounds(ring: Ring, b: Box) {
    BoundsPrefix(ring, |ring|, b)
  }

  method RingBoundingBox(ring: Ring) returns (r: Option<Box>)
    ensures r.None? <==> forall i :: 0 <= i < |ring| ==> ring[i].None?
    ensures r.Some? ==> Bounds(ring, r.value)
  {
    r := None;
    for n := 0 to |ring|
      invariant r.None? <==> forall i :: 0 <= i < n ==> ring[i].None?
      invariant r.Some? ==> BoundsPrefix(ring, n, r.value)
    {
      if ring[n].Some? {
        var p := ring[n].value;
        if r.None? {
          r := Some(Box(p.x, p.y, p.x, p.y));
        } else {
          var b := r.value;
          if p.x < b.minX { b := b.(minX := p.x); }
          if p.x > b.maxX { b := b.(maxX := p.x); }
          if p.y < b.minY { b := b.(minY := p.y); }
          if p.y > b.maxY { b := b.(maxY := p.y); }
          ExtendBounds(ring, n, r.value, b);
          r := Some(b);
        }
      }
    }
  }

  lemma ExtendBounds(ring: Ring, n: nat, b: Box, c: Box)
    requires n < |ring| && ring[n].Some? && BoundsPrefix(ring, n, b)
    requires var p := ring[n].value;
             && c.minX == (if p.x < b.minX then p.x else b.minX)
             && c.maxX == (if p.x > b.maxX then p.x else b.maxX)
             && c.minY == (if p.y < b.minY then p.y else b.minY)
             && c.maxY == (if p.y > b.maxY then p.y else b.maxY)
    ensures BoundsPrefix(ring, n + 1, c)
  {
    var i1 :| 0 <= i1 < n && ring[i1].Some? && ring[i1].value.x == b.minX;
    var i2 :| 0 <= i2 < n && ring[i2].Some? && ring[i2].value.x == b.maxX;
    var i3 :| 0 <= i3 < n && ring[i3].Some? && ring[i3].value.y == b.minY;
    var i4 :| 0 <= i4 < n && ring[i4].Some? && ring[i4].value.y == b.maxY;
    var p := ring[n].value;
    assert ring[if p.x < b.minX then n else i1].value.x == c.minX;
    assert ring[if p.x > b.maxX then n else i2].value.x == c.maxX;
    assert ring[if p.y < b.minY then n else i3].value.y == c.minY;
    assert ring[if p.y > b.maxY then n else i4].value.y == c.maxY;
  }

  // ---------------------------------------------------------------------------
  // The parity argument
  // ---------------------------------------------------------------------------

  function Above(v: Option<Point>, y: real): (a: nat) {
    if v.Some? && v.value.y > y then 1 else 0
  }

  /** Edges among the first n whose ends lie on different sides of height y. */
  function Straddles(ring: Ring, y: real, n: nat): (c: nat)
    requires n <= |ring|
  {
    if n == 0 then 0 else
      Straddles(ring, y, n - 1) +
      if HasEdge(ring, n - 1) && Above(ring[n - 1], y) != Above(ring[Prev(ring, n - 1)], y) then 1 else 0
  }

  /** Edge slots among the first n with exactly one decodable end, that end above y. */
  function Dangling(ring: Ring, y: real, n: nat): (c: nat)
    requires n <= |ring|
  {
    if n == 0 then 0 else
      Dangling(ring, y, n - 1) +
      if HasEdge(ring, n - 1) then 0 else Above(ring[n - 1], y) + Above(ring[Prev(ring, n - 1)], y)
  }

  /** Every height at which some vertex lies sees an even number of dangling ends above it. */
  predicate EndsBalanced(ring: Ring) {
    forall k :: 0 <= k < |ring| && ring[k].Some? ==> Dangling(ring, ring[k].value.y, |ring|) % 2 == 0
  }

  /** Walking the ring, the side of y changes exactly at straddling edges and at gaps. */
  lemma {:induction false} ParityTelescopes(ring: Ring, y: real, n: nat)
    requires 0 < n <= |ring|
    ensures (Straddles(ring, y, n) + Dangling(ring, y, n)) % 2 ==
            (Above(ring[|ring| - 1], y) + Above(ring[n - 1], y)) % 2
    decreases n
  {
    if n > 1 {
      ParityTelescopes(ring, y, n - 1);
    }
  }

  /** A cyclic ring straddles a height as often, modulo two, as it has dangling ends above it. */
  lemma StraddleParity(ring: Ring, y: real)
    ensures Straddles(ring, y, |ring|) % 2 == Dangling(ring, y, |ring|) % 2
  {
    if |ring| > 0 {
      ParityTelescopes(ring, y, |ring|);
    }
  }

  /** A straddled edge meets height y within the x-extent of its ends. */
  lemma CrossingPoint(y: real, a: Point, b: Point, lo: real, hi: real)
    requires (a.y > y) != (b.y > y)
    requires lo <= a.x <= hi && lo <= b.x <= hi
    ensures lo <= MeetX(y, a, b) <= hi
  {
    var t := (y - a.y) / (b.y - a.y);
    UnitFraction(y - a.y, b.y - a.y);
    assert MeetX(y, a, b) == (b.x - a.x) * t + a.x;
    Between(a.x, b.x, t, lo, hi);
  }

  lemma UnitFraction(n: real, d: real)
    requires d != 0.0 && (d > 0.0 ==> 0.0 <= n <= d) && (d < 0.0 ==> d <= n <= 0.0)
    ensures 0.0 <= n / d <= 1.0
  {
  }

  lemma Between(a: real, b: real, t: real, lo: real, hi: real)
    requires 0.0 <= t <= 1.0 && lo <= a <= hi && lo <= b <= hi
    ensures lo <= (b - a) * t + a <= hi
  {
    Scale(b - lo, t);
    Scale(hi - b, t);
    Scale(a - lo, 1.0 - t);
    Scale(hi - a, 1.0 - t);
    assert (b - a) * t + a - lo == (b - lo) * t + (a - lo) * (1.0 - t);
    assert hi - ((b - a) * t + a) == (hi - b) * t + (hi - a) * (1.0 - t);
  }

  lemma Scale(u: real, t: real)
    requires u >= 0.0 && t >= 0.0
    ensures u * t >= 0.0
  {
  }

  /** Left of the box every straddling edge is crossed; right of it none is. */
  lemma {:induction false} CrossingsBesideBox(p: Point, ring: Ring, b: Box, n: nat)
    requires n <= |ring|
    requires forall i :: 0 <= i < |ring| && ring[i].Some? ==> InBox(ring[i].value, b)
    ensures p.x < b.minX ==> Crossings(p, ring, n) == Straddles(ring, p.y, n)
    ensures p.x > b.maxX ==> Crossings(p, ring, n) == 0
    decreases n
  {
    if n > 0 {
      CrossingsBesideBox(p, ring, b, n - 1);
      if HasEdge(ring, n - 1) {
        var u, v := ring[n - 1].value, ring[Prev(ring, n - 1)].value;
        if (u.y > p.y) != (v.y > p.y) {
          CrossingPoint(p.y, u, v, b.minX, b.maxX);
        }
      }
    }
  }

  /** Above or below the box no edge straddles, so none is crossed. */
  lemma {:induction false} NoCrossingBeyondBox(p: Point, ring: Ring, b: Box, n: nat)
    requires n <= |ring|
    requires forall i :: 0 <= i < |ring| && ring[i].Some? ==> InBox(ring[i].value, b)
    requires p.y < b.minY || p.y > b.maxY
    ensures Crossings(p, ring, n) == 0
    decreases n
  {
    if n > 0 {
      NoCrossingBeyondBox(p, ring, b, n - 1);
    }
  }

  /** The highest vertex at or below y. */
  lemma {:induction false} FloorVertex(ring: Ring, y: real, n: nat, w: nat) returns (k: nat)
    requires w < n <= |ring| && ring[w].Some? && ring[w].value.y <= y
    ensures k < n && ring[k].Some? && ring[k].value.y <= y
    ensures forall i :: 0 <= i < n && ring[i].Some? && ring[i].value.y <= y ==> ring[i].value.y <= ring[k].value.y
  {
    k := w;
    for i := 0 to n
      invariant k < n && ring[k].Some? && ring[k].value.y <= y
      invariant forall m :: 0 <= m < i && ring[m].Some? && ring[m].value.y <= y ==> ring[m].value.y <= ring[k].value.y
    {
      if ring[i].Some? && ring[k].value.y < ring[i].value.y <= y {
        k := i;
      }
    }
  }

  /** Dangling depends on y only through which vertices lie above it. */
  lemma {:induction false} DanglingSameSide(ring: Ring, y: real, z: real, n: nat)
    requires n <= |ring|
    requires forall i :: 0 <= i < |ring| ==> Above(ring[i], y) == Above(ring[i], z)
    ensures Dangling(ring, y, n) == Dangling(ring, z, n)
    decreases n
  {
    if n > 0 {
      DanglingSameSide(ring, y, z, n - 1);
    }
  }

  lemma BalancedAtEveryHeight(ring: Ring, b: Box, y: real)
    requires Bounds(ring, b) && EndsBalanced(ring) && b.minY <= y
    ensures Dangling(ring, y, |ring|) % 2 == 0
  {
    var w :| 0 <= w < |ring| && ring[w].Some? && ring[w].value.y == b.minY;
    var k := FloorVertex(ring, y, |ring|, w);
    DanglingSameSide(ring, y, ring[k].value.y, |ring|);
  }

  /** With balanced ends, a point the even-odd loop accepts lies in the closed box. */
  lemma AcceptedInBox(p: Point, ring: Ring, b: Box)
    requires Bounds(ring, b) && EndsBalanced(ring) && InRing(p, ring)
    ensures InBox(p, b)
  {
    if p.y < b.minY || p.y > b.maxY {
      NoCrossingBeyondBox(p, ring, b, |ring|);
    } else if !InBox(p, b) {
      CrossingsBesideBox(p, ring, b, |ring|);
      StraddleParity(ring, p.y);
      BalancedAtEveryHeight(ring, b, p.y);
    }
  }

  /** Some vertex has the extreme coordinates, so a ring with a vertex has a box. */
  lemma {:induction false} PrefixBoxExists(ring: Ring, n: nat, w: nat) returns (b: Box)
    requires w < n <= |ring| && ring[w].Some?
    ensures BoundsPrefix(ring, n, b)
    decreases n
  {
    var last := n - 1;
    if forall i :: 0 <= i < last ==> ring[i].None? {
      var p := ring[last].value;
      b := Box(p.x, p.y, p.x, p.y);
    } else {
      var v :| 0 <= v < last && ring[v].Some?;
      var a := PrefixBoxExists(ring, last, v);
      b := a;
      if ring[last].Some? {
        var p := ring[last].value;
        b := Box(if p.x < a.minX then p.x else a.minX, if p.y < a.minY then p.y else a.minY,
                 if p.x > a.maxX then p.x else a.maxX, if p.y > a.maxY then p.y else a.maxY);
        ExtendBounds(ring, last, a, b);
      }
    }
  }

  lemma BoxExists(ring: Ring) returns (b: Box)
    requires exists i :: 0 <= i < |ring| && ring[i].Some?
    ensures Bounds(ring, b)
  {
    var w :| 0 <= w < |ring| && ring[w].Some?;
    b := PrefixBoxExists(ring, |ring|, w);
  }

  /** An unbalanced height lets a point left of the box through. */
  lemma EscapesBox(ring: Ring, b: Box, k: nat) returns (p: Point)
    requires Bounds(ring, b) && k < |ring| && ring[k].Some?
    requires Dangling(ring, ring[k].value.y, |ring|) % 2 == 1
    ensures InRing(p, ring) && !InBox(p, b)
  {
    p := Point(b.minX - 1.0, ring[k].value.y);
    CrossingsBesideBox(p, ring, b, |ring|);
    StraddleParity(ring, p.y);
  }

  /** The box never hides an accepted point exactly when the ring's loose ends balance. */
  lemma BoxSoundIffBalanced(ring: Ring, b: Box)
    requires Bounds(ring, b)
    ensures (forall p :: InRing(p, ring) ==> InBox(p, b)) <==> EndsBalanced(ring)
  {
    if EndsBalanced(ring) {
      forall p | InRing(p, ring) ensures InBox(p, b) {
        AcceptedInBox(p, ring, b);
      }
    } else {
      var k :| 0 <= k < |ring| && ring[k].Some? && Dangling(ring, ring[k].value.y, |ring|) % 2 != 0;
      var p := EscapesBox(ring, b, k);
    }
  }

  lemma {:induction false} DecodableNoDangling(ring: Ring, y: real, n: nat)
    requires n <= |ring| && forall i :: 0 <= i < |ring| ==> ring[i].Some?
    ensures Dangling(ring, y, n) == 0
    decreases n
  {
    if n > 0 {
      DecodableNoDangling(ring, y, n - 1);
    }
  }

  /** A ring whose positions all decode is balanced. */
  lemma DecodableBalanced(ring: Ring)
    requires forall i :: 0 <= i < |ring| ==> ring[i].Some?
    ensures EndsBalanced(ring)
  {
    forall k | 0 <= k < |ring| && ring[k].Some?
      ensures Dangling(ring, ring[k].value.y, |ring|) % 2 == 0
    {
      DecodableNoDangling(ring, ring[k].value.y, |ring|);
    }
  }

  /** One undecodable position is enough to accept a point far outside the box. */
  lemma UndecodableVertexEscapes()
    ensures var ring: Ring := [Some(Point(0.0, 0.0)), None, Some(Point(0.0, 2.0))];
            Bounds(ring, Box(0.0, 0.0, 0.0, 2.0)) && InRing(Point(-5.0, 1.0), ring)
  {
    var ring: Ring := [Some(Point(0.0, 0.0)), None, Some(Point(0.0, 2.0))];
    var p := Point(-5.0, 1.0);
    assert ring[0].value.y == 0.0 && ring[2].value.y == 2.0;
    assert Crossings(p, ring, 1) == 1;
    assert Crossings(p, ring, 2) == 1;
    assert Crossings(p, ring, 3) == 1;
  }

  // ---------------------------------------------------------------------------
  // Distance to the ring
  // ---------------------------------------------------------------------------

  function Product(u: real, v: real): real {
    u * v
  }

  lemma ProductPositive(u: real, v: real)
    requires (u > 0.0 && v > 0.0) || (u < 0.0 && v < 0.0)
    ensures Product(u, v) > 0.0
  {
    if u < 0.0 {
      assert Product(u, v) == Product(-u, -v);
    }
  }

  lemma SquareSign(u: real)
    ensures Product(u, u) >= 0.0
    ensures u != 0.0 ==> Product(u, u) > 0.0
  {
    if u != 0.0 {
      ProductPositive(u, u);
    }
  }

  function NormSq(dx: real, dy: real): real {
    Product(dx, dx) + Product(dy, dy)
  }

  lemma NormSqPositive(dx: real, dy: real)
    requires dx != 0.0 || dy != 0.0
    ensures NormSq(dx, dy) > 0.0
  {
    SquareSign(dx);
    SquareSign(dy);
  }

  lemma SquareGrows(u: real, r: real)
    requires 0.0 <= r < u
    ensures Product(r, r) < Product(u, u)
  {
    ProductPositive(u - r, u);
    if r > 0.0 {
      ProductPositive(u - r, r);
    }
    assert Product(u, u) - Product(r, r) == Product(u - r, u) + Product(u - r, r);
  }

  /** Within a circle, each axis is within the radius. */
  lemma AxisWithinRadius(u: real, v: real, r: real)
    requires r >= 0.0 && Product(u, u) + Product(v, v) <= Product(r, r)
    ensures -r <= u <= r
  {
    SquareSign(v);
    if u > r {
      SquareGrows(u, r);
    } else if u < -r {
      assert Product(-u, -u) == Product(u, u);
      SquareGrows(-u, r);
    }
  }

  function DistSq(p: Point, q: Point): real {
    NormSq(p.x - q.x, p.y - q.y)
  }

  function Dot(ux: real, uy: real, vx: real, vy: real): real {
    ux * vx + uy * vy
  }

  function Clamp01(t: real): (c: real)
    ensures 0.0 <= c <= 1.0
  {
    if t < 0.0 then 0.0 else if t > 1.0 then 1.0 else t
  }

  /** The clamped projection parameter of p on the segment from a to b. */
  function ClosestParameter(p: Point, a: Point, b: Point): (t: real)
    ensures 0.0 <= t <= 1.0
  {
    var dx, dy := b.x - a.x, b.y - a.y;
    if dx == 0.0 && dy == 0.0 then 0.0 else
      NormSqPositive(dx, dy);
      Clamp01(Dot(p.x - a.x, p.y - a.y, dx, dy) / NormSq(dx, dy))
  }

  function SegmentDistSq(p: Point, a: Point, b: Point): real {
    DistSq(p, Along(a, b, ClosestParameter(p, a, b)))
  }

  lemma SquareOfDifference(u: real, t: real, d: real)
    ensures (u - t * d) * (u - t * d) == u * u - 2.0 * t * (u * d) + t * t * (d * d)
  {
    var w := t * d;
    assert (u - w) * (u - w) == u * u - 2.0 * (u * w) + w * w;
    assert u * w == t * (u * d);
    assert w * w == t * t * (d * d);
  }

  lemma Distribute(k: real, u: real, v: real)
    ensures k * (u + v) == k * u + k * v
  {
  }

  function Quadratic(n: real, m: real, q: real, t: real): real {
    n - 2.0 * t * m + t * t * q
  }

  /** The squared norm of u - t d as a quadratic in t. */
  lemma NormSqQuadratic(ux: real, uy: real, dx: real, dy: real, t: real)
    ensures NormSq(ux - t * dx, uy - t * dy) == Quadratic(NormSq(ux, uy), Dot(ux, uy, dx, dy), NormSq(dx, dy), t)
  {
    SquareOfDifference(ux, t, dx);
    SquareOfDifference(uy, t, dy);
    Distribute(2.0 * t, ux * dx, uy * dy);
    Distribute(t * t, dx * dx, dy * dy);
  }

  /** The clamped vertex minimises the quadratic n - 2 m t + q t^2 on the unit interval. */
  lemma ClampMinimises(n: real, q: real, m: real, t: real)
    requires q > 0.0 && 0.0 <= t <= 1.0
    ensures Quadratic(n, m, q, Clamp01(m / q)) <= Quadratic(n, m, q, t)
  {
    var z := m / q;
    var c := Clamp01(z);
    assert Product(t - c, t + c - 2.0 * z) >= 0.0 by {
      if z < 0.0 {
        Scale(t - c, t + c - 2.0 * z);
      } else if z > 1.0 {
        Scale(c - t, 2.0 * z - t - c);
        assert Product(t - c, t + c - 2.0 * z) == Product(c - t, 2.0 * z - t - c);
      } else {
        SquareSign(t - c);
      }
    }
    QuadraticGap(n, q, z, c, t);
    Scale(q, Product(t - c, t + c - 2.0 * z));
    assert z * q == m;
  }

  lemma QuadraticGap(n: real, q: real, z: real, c: real, t: real)
    ensures Quadratic(n, z * q, q, t) - Quadratic(n, z * q, q, c) == q * Product(t - c, t + c - 2.0 * z)
  {
    assert Product(t - c, t + c - 2.0 * z) == t * t - c * c - 2.0 * z * t + 2.0 * z * c;
  }

  /** The squared length of u once t times d is taken off. */
  function Residual(ux: real, uy: real, dx: real, dy: real, t: real): real {
    NormSq(ux - t * dx, uy - t * dy)
  }

  lemma ClampClosest(ux: real, uy: real, dx: real, dy: real, t: real)
    requires NormSq(dx, dy) > 0.0 && 0.0 <= t <= 1.0
    ensures Residual(ux, uy, dx, dy, Clamp01(Dot(ux, uy, dx, dy) / NormSq(dx, dy))) <= Residual(ux, uy, dx, dy, t)
  {
    var c := Clamp01(Dot(ux, uy, dx, dy) / NormSq(dx, dy));
    NormSqQuadratic(ux, uy, dx, dy, t);
    NormSqQuadratic(ux, uy, dx, dy, c);
    ClampMinimises(NormSq(ux, uy), NormSq(dx, dy), Dot(ux, uy, dx, dy), t);
  }

  lemma DistSqAlong(p: Point, a: Point, b: Point, t: real, ux: real, uy: real, dx: real, dy: real)
    requires ux == p.x - a.x && uy == p.y - a.y && dx == b.x - a.x && dy == b.y - a.y
    ensures DistSq(p, Along(a, b, t)) == Residual(ux, uy, dx, dy, t)
  {
    assert p.x - Along(a, b, t).x == ux - t * dx;
    assert p.y - Along(a, b, t).y == uy - t * dy;
  }

  /** No point of the segment is closer than the clamped projection. */
  lemma SegmentClosest(p: Point, a: Point, b: Point, t: real)
    requires 0.0 <= t <= 1.0
    ensures SegmentDistSq(p, a, b) <= DistSq(p, Along(a, b, t))
  {
    var c := ClosestParameter(p, a, b);
    var dx, dy := b.x - a.x, b.y - a.y;
    if dx == 0.0 && dy == 0.0 {
      AlongPoint(a, t);
      AlongPoint(a, c);
    } else {
      SegmentClosestProper(p, a, b, t);
    }
  }

  lemma AlongPoint(a: Point, t: real)
    ensures Along(a, a, t) == a
  {
    assert t * (a.x - a.x) == 0.0;
  }

  lemma SegmentClosestProper(p: Point, a: Point, b: Point, t: real)
    requires 0.0 <= t <= 1.0 && a != b
    ensures DistSq(p, Along(a, b, ClosestParameter(p, a, b))) <= DistSq(p, Along(a, b, t))
  {
    SegmentClosestFrom(p, a, b, t, p.x - a.x, p.y - a.y, b.x - a.x, b.y - a.y);
  }

  /** Comparing offsets is comparing points along the segment. */
  lemma CloserAlong(p: Point, a: Point, b: Point, c: real, t: real, ux: real, uy: real, dx: real, dy: real)
    requires ux == p.x - a.x && uy == p.y - a.y && dx == b.x - a.x && dy == b.y - a.y
    requires Residual(ux, uy, dx, dy, c) <= Residual(ux, uy, dx, dy, t)
    ensures DistSq(p, Along(a, b, c)) <= DistSq(p, Along(a, b, t))
  {
    DistSqAlong(p, a, b, t, ux, uy, dx, dy);
    DistSqAlong(p, a, b, c, ux, uy, dx, dy);
  }

  lemma SegmentClosestFrom(p: Point, a: Point, b: Point, t: real, ux: real, uy: real, dx: real, dy: real)
    requires 0.0 <= t <= 1.0 && (dx != 0.0 || dy != 0.0)
    requires ux == p.x - a.x && uy == p.y - a.y && dx == b.x - a.x && dy == b.y - a.y
    ensures NormSq(dx, dy) > 0.0
    ensures DistSq(p, Along(a, b, Clamp01(Dot(ux, uy, dx, dy) / NormSq(dx, dy)))) <= DistSq(p, Along(a, b, t))
  {
    NormSqPositive(dx, dy);
    ClampClosest(ux, uy, dx, dy, t);
    var c := Clamp01(Dot(ux, uy, dx, dy) / NormSq(dx, dy));
    CloserAlong(p, a, b, c, t, ux, uy, dx, dy);
  }

  /** d is the squared distance from p to the nearest point of the ring's first n edges. */
  ghost predicate NearestSq(p: Point, ring: Ring, n: nat, d: real)
    requires n <= |ring|
  {
    && (exists i, t :: 0 <= i < n && HasEdge(ring, i) && 0.0 <= t <= 1.0 &&
          d == DistSq(p, Along(ring[Prev(ring, i)].value, ring[i].value, t)))
    && (forall i, t :: 0 <= i < n && HasEdge(ring, i) && 0.0 <= t <= 1.0 ==>
          d <= DistSq(p, Along(ring[Prev(ring, i)].value, ring[i].value, t)))
  }

  lemma NearestStep(p: Point, ring: Ring, n: nat, best: Option<real>, d: real)
    requires n < |ring| && HasEdge(ring, n)
    requires best.None? ==> forall i :: 0 <= i < n ==> !HasEdge(ring, i)
    requires best.Some? ==> NearestSq(p, ring, n, best.value)
    requires var s := SegmentDistSq(p, ring[Prev(ring, n)].value, ring[n].value);
             d == if best.None? || s < best.value then s else best.value
    ensures NearestSq(p, ring, n + 1, d)
  {
    var a, b := ring[Prev(ring, n)].value, ring[n].value;
    var c := ClosestParameter(p, a, b);
    if d == SegmentDistSq(p, a, b) {
      assert HasEdge(ring, n) && 0.0 <= c <= 1.0 && d == DistSq(p, Along(a, b, c));
    }
    forall i, t | 0 <= i < n + 1 && HasEdge(ring, i) && 0.0 <= t <= 1.0
      ensures d <= DistSq(p, Along(ring[Prev(ring, i)].value, ring[i].value, t))
    {
      if i == n {
        SegmentClosest(p, a, b, t);
      }
    }
  }

  /** The squared distance to the ring, or None where the source reports an error. */
  method PointToRingDistanceSq(p: Point, ring: Ring) returns (r: Option<real>)
    ensures r.None? <==> forall i :: 0 <= i < |ring| ==> !HasEdge(ring, i)
    ensures r.Some? ==> NearestSq(p, ring, |ring|, r.value)
  {
    r := None;
    var last := |ring| - 1;
    for i := 0 to |ring|
      invariant last == if i == 0 then |ring| - 1 else i - 1
      invariant r.None? <==> forall k :: 0 <= k < i ==> !HasEdge(ring, k)
      invariant r.Some? ==> NearestSq(p, ring, i, r.value)
    {
      if ring[last].Some? && ring[i].Some? {
        assert HasEdge(ring, i);
        var d := SegmentDistSq(p, ring[last].value, ring[i].value);
        ghost var before := r;
        if r.None? || d < r.value {
          r := Some(d);
        }
        NearestStep(p, ring, i, before, r.value);
      } else {
        assert !HasEdge(ring, i);
      }
      last := i;
    }
  }
}
