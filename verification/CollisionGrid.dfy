/**
 The spatial grid that narrows down collision candidates. Looking only at the cells around
 a motion must find every motion that the radius test would call colliding.
 */
module CollisionGrid {
  import opened Wrappers
  import opened Sequences
  import opened RingGeometry

  const CELL_SIZE := 100.0
  const FALLBACK_RADIUS := 0.5

  /** An active motion with its position projected into its coordinate space. */
  datatype Motion = Motion(id: string, space: string, x: real, y: real)

  datatype Cell = Cell(space: string, x: int, y: int)

  type Index = map<Cell, seq<Motion>>

  function CellIndex(v: real): (i: int)
    ensures i as real * CELL_SIZE <= v < (i + 1) as real * CELL_SIZE
  {
    (v / CELL_SIZE).Floor
  }

  function CellOf(m: Motion): Cell {
    Cell(m.space, CellIndex(m.x), CellIndex(m.y))
  }

  function Ceil(v: real): int {
    -((-v).Floor)
  }

  /** The least number of cells, but at least one, that covers the padded distance. */
  function RadiusCells(distance: real, padding: real): (n: int)
    ensures n >= 1 && distance * padding <= n as real * CELL_SIZE
    ensures n > 1 ==> (n - 1) as real * CELL_SIZE < distance * padding
  {
    var n := Ceil(distance * padding / CELL_SIZE);
    if n < 1 then 1 else n
  }

  // ---------------------------------------------------------------------------
  // Building and searching the grid
  // ---------------------------------------------------------------------------

  function CellTest(c: Cell): Motion -> bool {
    (m: Motion) => CellOf(m) == c
  }

  function At(index: Index, c: Cell): seq<Motion> {
    if c in index then index[c] else []
  }

  ghost predicate IndexOf(index: Index, motions: seq<Motion>) {
    forall c :: At(index, c) == Filter(motions, CellTest(c))
  }

  method BuildIndex(motions: seq<Motion>) returns (index: Index)
    ensures IndexOf(index, motions)
  {
    index := map[];
    for n := 0 to |motions|
      invariant IndexOf(index, motions[..n])
    {
      ghost var before := index;
      var c := CellOf(motions[n]);
      index := index[c := At(index, c) + [motions[n]]];
      assert motions[..n + 1] == motions[..n] + [motions[n]];
      forall d ensures At(index, d) == Filter(motions[..n + 1], CellTest(d)) {
        FilterSnoc(motions[..n], motions[n], CellTest(d));
        assert At(before, d) == Filter(motions[..n], CellTest(d));
      }
    }
    assert motions[..|motions|] == motions;
  }

  /** The cells the search loops have passed: whole columns before i and, in column i, rows before j. */
  predicate Passed(m: Motion, space: string, x0: int, y0: int, r: int, i: int, j: int) {
    var c := CellOf(m);
    && c.space == space && y0 - r <= c.y <= y0 + r
    && ((x0 - r <= c.x < i) || (c.x == i && c.y < j))
  }

  function PassedTest(space: string, x0: int, y0: int, r: int, i: int, j: int): Motion -> bool {
    (m: Motion) => Passed(m, space, x0, y0, r, i, j)
  }

  /** Within r cells in both directions. */
  predicate InRange(m: Motion, space: string, x0: int, y0: int, r: int) {
    CellOf(m).space == space && x0 - r <= CellOf(m).x <= x0 + r && y0 - r <= CellOf(m).y <= y0 + r
  }

  function RangeTest(space: string, x0: int, y0: int, r: int): Motion -> bool {
    (m: Motion) => InRange(m, space, x0, y0, r)
  }

  /** One column of the search: every motion in it is taken, and taken once. */
  method SearchColumn(index: Index, ghost motions: seq<Motion>, space: string, x0: int, y0: int, r: int, i: int,
                      before: seq<Motion>) returns (found: seq<Motion>)
    requires IndexOf(index, motions) && r >= 1 && x0 - r <= i
    requires multiset(before) == multiset(Filter(motions, PassedTest(space, x0, y0, r, i, y0 - r)))
    ensures multiset(found) == multiset(Filter(motions, PassedTest(space, x0, y0, r, i, y0 + r + 1)))
  {
    found := before;
    for j := y0 - r to y0 + r + 1
      invariant multiset(found) == multiset(Filter(motions, PassedTest(space, x0, y0, r, i, j)))
    {
      var c := Cell(space, i, j);
      assert At(index, c) == Filter(motions, CellTest(c));
      FilterUnion(motions, PassedTest(space, x0, y0, r, i, j), CellTest(c), PassedTest(space, x0, y0, r, i, j + 1));
      found := found + At(index, c);
    }
  }

  /** The motions in the cells around a point, each once, and no others. */
  method Nearby(index: Index, ghost motions: seq<Motion>, space: string, x: real, y: real, distance: real,
                padding: real)
    returns (found: seq<Motion>)
    requires IndexOf(index, motions)
    ensures multiset(found) ==
            multiset(Filter(motions, RangeTest(space, CellIndex(x), CellIndex(y), RadiusCells(distance, padding))))
  {
    var r, x0, y0 := RadiusCells(distance, padding), CellIndex(x), CellIndex(y);
    found := [];
    FilterNone(motions, PassedTest(space, x0, y0, r, x0 - r, y0 - r));
    for i := x0 - r to x0 + r + 1
      invariant multiset(found) == multiset(Filter(motions, PassedTest(space, x0, y0, r, i, y0 - r)))
    {
      found := SearchColumn(index, motions, space, x0, y0, r, i, found);
      FilterSame(motions, PassedTest(space, x0, y0, r, i, y0 + r + 1), PassedTest(space, x0, y0, r, i + 1, y0 - r));
    }
    FilterSame(motions, PassedTest(space, x0, y0, r, x0 + r + 1, y0 - r), RangeTest(space, x0, y0, r));
  }

  // ---------------------------------------------------------------------------
  // The radius test
  // ---------------------------------------------------------------------------

  /** A positive radius of the trackable's own prevails over a positive default, and that over half a metre. */
  function EffectiveRadius(radius: Option<real>, fallback: real): (r: real)
    ensures r > 0.0 && (Some(r) == radius || r == fallback || r == FALLBACK_RADIUS)
    ensures radius.Some? && radius.value > 0.0 ==> Some(r) == radius
    ensures (radius.None? || radius.value <= 0.0) && fallback > 0.0 ==> r == fallback
  {
    if radius.Some? && radius.value > 0.0 then radius.value
    else if fallback > 0.0 then fallback
    else FALLBACK_RADIUS
  }

  /** The distance to a motion along each axis, in metres. */
  datatype Axes = Axes(dx: real, dy: real)

  predicate MayCollide(d: Axes, reach: real) {
    d.dx <= reach && d.dy <= reach
  }

  predicate Colliding(d: Axes, reach: real) {
    Product(d.dx, d.dx) + Product(d.dy, d.dy) <= Product(reach, reach)
  }

  /** The circle test compares the distance with the reach, on squares. */
  lemma CollidingIff(d: Axes, reach: real, distance: real)
    requires reach >= 0.0 && distance >= 0.0
    requires Product(distance, distance) == Product(d.dx, d.dx) + Product(d.dy, d.dy)
    ensures Colliding(d, reach) <==> distance <= reach
  {
    if distance > reach {
      SquareGrows(distance, reach);
    } else if distance < reach {
      SquareGrows(reach, distance);
    }
  }

  /** The rectangle test never rejects what the circle test accepts. */
  lemma CollidingMayCollide(d: Axes, reach: real)
    requires reach >= 0.0 && Colliding(d, reach)
    ensures MayCollide(d, reach)
  {
    AxisWithinRadius(d.dx, d.dy, reach);
    AxisWithinRadius(d.dy, d.dx, reach);
  }

  /** Points at most d apart are at most ceil(d / cell size) cells apart. */
  lemma CellsApart(a: real, b: real, d: real)
    requires -d <= a - b <= d
    ensures -Ceil(d / CELL_SIZE) <= CellIndex(a) - CellIndex(b) <= Ceil(d / CELL_SIZE)
  {
    var c := Ceil(d / CELL_SIZE);
    assert d / CELL_SIZE <= c as real;
    assert a / CELL_SIZE - b / CELL_SIZE <= d / CELL_SIZE;
    assert b / CELL_SIZE - a / CELL_SIZE <= d / CELL_SIZE;
  }

  /** What the grid sees of a motion at distance `axes`: its projected offset is at most padding times metres. */
  predicate WithinScale(x: real, y: real, m: Motion, axes: Axes, padding: real) {
    && 0.0 <= axes.dx && 0.0 <= axes.dy
    && -Product(padding, axes.dx) <= x - m.x <= Product(padding, axes.dx)
    && -Product(padding, axes.dy) <= y - m.y <= Product(padding, axes.dy)
  }

  lemma PaddedAxis(axis: real, distance: real, padding: real)
    requires axis <= distance && padding >= 0.0
    ensures Product(padding, axis) <= distance * padding
  {
    Scale(distance - axis, padding);
    assert (distance - axis) * padding == distance * padding - padding * axis;
  }

  lemma ReachInCells(a: real, b: real, axis: real, distance: real, padding: real)
    requires -Product(padding, axis) <= a - b <= Product(padding, axis) && 0.0 <= axis <= distance && padding >= 0.0
    ensures -RadiusCells(distance, padding) <= CellIndex(a) - CellIndex(b) <= RadiusCells(distance, padding)
  {
    PaddedAxis(axis, distance, padding);
    var reach := distance * padding;
    CellsApart(a, b, reach);
  }

  /** A colliding motion lies in the searched cells. */
  lemma CollidingInRange(x: real, y: real, m: Motion, axes: Axes, reach: real, distance: real, padding: real)
    requires WithinScale(x, y, m, axes, padding) && padding >= 0.0 && 0.0 <= reach <= distance
    requires Colliding(axes, reach)
    ensures InRange(m, m.space, CellIndex(x), CellIndex(y), RadiusCells(distance, padding))
  {
    CollidingMayCollide(axes, reach);
    ReachInCells(x, m.x, axes.dx, distance, padding);
    ReachInCells(y, m.y, axes.dy, distance, padding);
  }

  /** Planar spaces need no padding at all. */
  lemma PlanarWithinScale(x: real, y: real, m: Motion)
    ensures var dx := if x < m.x then m.x - x else x - m.x;
            var dy := if y < m.y then m.y - y else y - m.y;
            WithinScale(x, y, m, Axes(dx, dy), 1.0)
  {
  }

  // ---------------------------------------------------------------------------
  // Candidates of one motion
  // ---------------------------------------------------------------------------

  /** The largest radius among the active motions whose trackable is known, at least the default. */
  function MaxRadius(motions: seq<Motion>, radii: map<string, Option<real>>, fallback: real): (r: real)
    ensures r >= fallback
  {
    if motions == [] then fallback else
      var r, m := MaxRadius(motions[..|motions| - 1], radii, fallback), motions[|motions| - 1];
      if m.id in radii && EffectiveRadius(radii[m.id], fallback) > r then EffectiveRadius(radii[m.id], fallback) else r
  }

  lemma {:induction false} MaxRadiusBounds(motions: seq<Motion>, radii: map<string, Option<real>>, fallback: real,
                                           m: Motion)
    requires m in motions && m.id in radii
    ensures EffectiveRadius(radii[m.id], fallback) <= MaxRadius(motions, radii, fallback)
  {
    if m != motions[|motions| - 1] {
      MaxRadiusBounds(motions[..|motions| - 1], radii, fallback, m);
    }
  }

  method MaxActiveRadius(motions: seq<Motion>, radii: map<string, Option<real>>, fallback: real) returns (r: real)
    ensures r == MaxRadius(motions, radii, fallback) && r >= fallback
    ensures forall m :: m in motions && m.id in radii ==> EffectiveRadius(radii[m.id], fallback) <= r
    ensures r == fallback || exists m :: m in motions && m.id in radii && r == EffectiveRadius(radii[m.id], fallback)
  {
    r := fallback;
    for n := 0 to |motions|
      invariant r == MaxRadius(motions[..n], radii, fallback)
      invariant r == fallback ||
                exists m :: m in motions && m.id in radii && r == EffectiveRadius(radii[m.id], fallback)
    {
      var m := motions[n];
      assert motions[..n + 1][..n] == motions[..n];
      if m.id in radii && EffectiveRadius(radii[m.id], fallback) > r {
        r := EffectiveRadius(radii[m.id], fallback);
      }
    }
    assert motions[..|motions|] == motions;
    forall m | m in motions && m.id in radii ensures EffectiveRadius(radii[m.id], fallback) <= r {
      MaxRadiusBounds(motions, radii, fallback, m);
    }
  }

  /** The query: a moving trackable with its radius and its distances to the active motions. */
  datatype Query = Query(id: string, space: string, x: real, y: real, padding: real, radius: real, axes: Motion -> Axes)

  predicate Hits(q: Query, m: Motion, radii: map<string, Option<real>>, fallback: real) {
    && m.space == q.space && m.id != q.id && m.id in radii
    && Colliding(q.axes(m), q.radius + EffectiveRadius(radii[m.id], fallback))
  }

  function HitTest(q: Query, radii: map<string, Option<real>>, fallback: real): Motion -> bool {
    (m: Motion) => Hits(q, m, radii, fallback)
  }

  /** The tests the code applies to a candidate from the grid. */
  predicate Survives(q: Query, m: Motion, radii: map<string, Option<real>>, fallback: real) {
    && m.id != q.id && m.id in radii
    && var reach := q.radius + EffectiveRadius(radii[m.id], fallback);
       MayCollide(q.axes(m), reach) && Colliding(q.axes(m), reach)
  }

  function SurvivesTest(q: Query, radii: map<string, Option<real>>, fallback: real): Motion -> bool {
    (m: Motion) => Survives(q, m, radii, fallback)
  }

  /** How many cells around the query are searched. */
  function SearchCells(motions: seq<Motion>, radii: map<string, Option<real>>, fallback: real, q: Query): int {
    RadiusCells(q.radius + MaxRadius(motions, radii, fallback), q.padding)
  }

  function MissedTest(q: Query, radii: map<string, Option<real>>, fallback: real, cells: int): Motion -> bool {
    (m: Motion) => Hits(q, m, radii, fallback) && !InRange(m, q.space, CellIndex(q.x), CellIndex(q.y), cells)
  }

  /** The motions that the radius test would call colliding and that lie outside the searched cells. */
  function Missed(motions: seq<Motion>, radii: map<string, Option<real>>, fallback: real, q: Query): seq<Motion> {
    Filter(motions, MissedTest(q, radii, fallback, SearchCells(motions, radii, fallback, q)))
  }

  /** A full scan with the circle test finds what grid, rectangle and circle find together, and what the cells miss. */
  method CollidingMotions(index: Index, motions: seq<Motion>, radii: map<string, Option<real>>, fallback: real,
                          q: Query)
    returns (found: seq<Motion>)
    requires IndexOf(index, motions) && q.radius > 0.0
    ensures multiset(Filter(motions, HitTest(q, radii, fallback))) ==
            multiset(found) + multiset(Missed(motions, radii, fallback, q))
  {
    var maxRadius := MaxActiveRadius(motions, radii, fallback);
    var distance := q.radius + maxRadius;
    var candidates := Nearby(index, motions, q.space, q.x, q.y, distance, q.padding);
    found := [];
    for n := 0 to |candidates|
      invariant found == Filter(candidates[..n], SurvivesTest(q, radii, fallback))
    {
      assert candidates[..n + 1] == candidates[..n] + [candidates[n]];
      FilterSnoc(candidates[..n], candidates[n], SurvivesTest(q, radii, fallback));
      if Survives(q, candidates[n], radii, fallback) {
        found := found + [candidates[n]];
      }
    }
    assert candidates[..|candidates|] == candidates;
    ScanSplits(motions, radii, fallback, q, candidates);
  }

  function FoundTest(q: Query, radii: map<string, Option<real>>, fallback: real, cells: int): Motion -> bool {
    (m: Motion) => InRange(m, q.space, CellIndex(q.x), CellIndex(q.y), cells) && Survives(q, m, radii, fallback)
  }

  /** Surviving the tests on a candidate of the query's space is being hit. */
  lemma SurvivesIsHits(q: Query, m: Motion, radii: map<string, Option<real>>, fallback: real)
    requires q.radius > 0.0 && m.space == q.space
    ensures Survives(q, m, radii, fallback) <==> Hits(q, m, radii, fallback)
  {
    if Hits(q, m, radii, fallback) {
      CollidingMayCollide(q.axes(m), q.radius + EffectiveRadius(radii[m.id], fallback));
    }
  }

  lemma ScanSplits(motions: seq<Motion>, radii: map<string, Option<real>>, fallback: real, q: Query,
                   candidates: seq<Motion>)
    requires q.radius > 0.0
    requires multiset(candidates) ==
             multiset(Filter(motions,
               RangeTest(q.space, CellIndex(q.x), CellIndex(q.y), SearchCells(motions, radii, fallback, q))))
    ensures multiset(Filter(motions, HitTest(q, radii, fallback))) ==
            multiset(Filter(candidates, SurvivesTest(q, radii, fallback))) +
            multiset(Missed(motions, radii, fallback, q))
  {
    var cells := SearchCells(motions, radii, fallback, q);
    var range := RangeTest(q.space, CellIndex(q.x), CellIndex(q.y), cells);
    var survives, hits := SurvivesTest(q, radii, fallback), HitTest(q, radii, fallback);
    var both, missed := FoundTest(q, radii, fallback, cells), MissedTest(q, radii, fallback, cells);
    FilterBag(candidates, Filter(motions, range), survives);
    FilterTwice(motions, range, survives, both);
    forall m | m in motions ensures !(both(m) && missed(m)) && (hits(m) <==> both(m) || missed(m)) {
      if m.space == q.space {
        SurvivesIsHits(q, m, radii, fallback);
      }
    }
    FilterUnion(motions, both, missed, hits);
  }

  /** Where projected offsets stay within padding times metres, the cells miss nothing. */
  lemma GridLosesNothing(motions: seq<Motion>, radii: map<string, Option<real>>, fallback: real, q: Query)
    requires q.padding >= 0.0 && q.radius > 0.0
    requires forall m :: m in motions && m.space == q.space ==> WithinScale(q.x, q.y, m, q.axes(m), q.padding)
    ensures Missed(motions, radii, fallback, q) == []
  {
    var cells := SearchCells(motions, radii, fallback, q);
    var distance := q.radius + MaxRadius(motions, radii, fallback);
    forall m | m in motions ensures !MissedTest(q, radii, fallback, cells)(m) {
      if Hits(q, m, radii, fallback) {
        var reach := q.radius + EffectiveRadius(radii[m.id], fallback);
        MaxRadiusBounds(motions, radii, fallback, m);
        CollidingInRange(q.x, q.y, m, q.axes(m), reach, distance, q.padding);
      }
    }
    FilterNone(motions, MissedTest(q, radii, fallback, cells));
  }

  lemma FarNorthCells(m: Motion, q: Query, radii: map<string, Option<real>>)
    requires m.id == "b" && radii == map["b" := Some(60.0)] && q.radius == 60.0 && q.padding == 2.0
    ensures SearchCells([m], radii, 0.5, q) == 3 && CellIndex(576.0) == 5 && CellIndex(0.0) == 0
  {
    assert [m][..0] == [] && MaxRadius([m][..0], radii, 0.5) == 0.5;
    assert MaxRadius([m], radii, 0.5) == 60.0;
  }

  lemma FarNorthHit(q: Query, m: Motion, radii: map<string, Option<real>>)
    requires m.id == "b" && radii == map["b" := Some(60.0)] && q.radius == 60.0 && q.id == "a" && q.space == m.space
    requires q.axes(m) == Axes(100.0, 0.0)
    ensures Hits(q, m, radii, 0.5)
  {
    assert Product(100.0, 100.0) + Product(0.0, 0.0) <= Product(120.0, 120.0);
  }

  /**
   Two motions of radius 60 that are 100 metres apart near 80 degrees of latitude, where
   Web Mercator stretches 5.76 times: five cells lie between them and three are searched.
   */
  lemma MissedFarNorth()
    ensures var m := Motion("b", "EPSG:4326", 576.0, 0.0);
            var q := Query("a", "EPSG:4326", 0.0, 0.0, 2.0, 60.0, (n: Motion) => Axes(100.0, 0.0));
            Missed([m], map["b" := Some(60.0)], 0.5, q) == [m]
  {
    var m := Motion("b", "EPSG:4326", 576.0, 0.0);
    var q := Query("a", "EPSG:4326", 0.0, 0.0, 2.0, 60.0, (n: Motion) => Axes(100.0, 0.0));
    var radii := map["b" := Some(60.0)];
    FarNorthCells(m, q, radii);
    FarNorthHit(q, m, radii);
    FilterSnoc([], m, MissedTest(q, radii, 0.5, 3));
    assert [] + [m] == [m];
  }

}
