/**
 The monotone-chain convex hull that the GTFS connector draws around stop positions,
 over exact reals. Duplicate and collinear input points are allowed.
 */
module ConvexHull {
  import opened RingGeometry

  /** Twice the signed area of the triangle o, a, b: positive for a left turn. */
  function Cross(o: Point, a: Point, b: Point): real {
    Det(a.x - o.x, a.y - o.y, b.x - o.x, b.y - o.y)
  }

  function Det(ux: real, uy: real, vx: real, vy: real): real {
    ux * vy - uy * vx
  }

  /** Python's order on coordinate pairs. */
  predicate LexLe(a: Point, b: Point) {
    a.x < b.x || (a.x == b.x && a.y <= b.y)
  }

  /** b is not passed before a when scanning upwards, or downwards. */
  predicate Ahead(up: bool, a: Point, b: Point) {
    if up then LexLe(a, b) else LexLe(b, a)
  }

  predicate Sorted(up: bool, s: seq<Point>) {
    forall i, j :: 0 <= i <= j < |s| ==> Ahead(up, s[i], s[j])
  }

  /** Some three of the points span a proper triangle. */
  ghost predicate NonCollinear(points: seq<Point>) {
    exists a, b, c :: a in points && b in points && c in points && Cross(a, b, c) != 0.0
  }

  // ---------------------------------------------------------------------------
  // Orientation lemmas
  // ---------------------------------------------------------------------------

  /** A vector into the half plane of increasing lexicographic order, or zero. */
  predicate Forward(x: real, y: real) {
    x > 0.0 || (x == 0.0 && y >= 0.0)
  }

  lemma SignOfFactor(x: real, k: real)
    requires k > 0.0
    ensures x * k >= 0.0 ==> x >= 0.0
    ensures x * k > 0.0 ==> x > 0.0
  {
    if x < 0.0 {
      ProductPositive(-x, k);
      assert Product(-x, k) == -(x * k);
    }
  }

  lemma NonNegativeProduct(x: real, k: real)
    requires x >= 0.0 && k >= 0.0
    ensures x * k >= 0.0
  {
  }

  lemma PositiveProduct(x: real, k: real)
    requires x > 0.0 && k > 0.0
    ensures x * k > 0.0
  {
  }

  /** The relation between three plane vectors, one coordinate at a time. */
  lemma Pluecker(ux: real, uy: real, vx: real, vy: real, wx: real, wy: real)
    ensures Det(ux, uy, wx, wy) * vx == Det(ux, uy, vx, vy) * wx + Det(vx, vy, wx, wy) * ux
    ensures Det(ux, uy, wx, wy) * vy == Det(ux, uy, vx, vy) * wy + Det(vx, vy, wx, wy) * uy
  {
  }

  /** Within the forward half plane, turning left twice is turning left. */
  lemma TurnsCompose(ux: real, uy: real, vx: real, vy: real, wx: real, wy: real)
    requires Forward(ux, uy) && Forward(vx, vy) && Forward(wx, wy)
    requires vx != 0.0 || vy != 0.0
    requires Det(ux, uy, vx, vy) >= 0.0 && Det(vx, vy, wx, wy) >= 0.0
    ensures Det(ux, uy, wx, wy) >= 0.0
  {
    Pluecker(ux, uy, vx, vy, wx, wy);
    if vx > 0.0 {
      NonNegativeProduct(Det(ux, uy, vx, vy), wx);
      NonNegativeProduct(Det(vx, vy, wx, wy), ux);
      SignOfFactor(Det(ux, uy, wx, wy), vx);
    } else {
      VerticalForward(vx, vy, wx, wy);
      NonNegativeProduct(ux, wy);
    }
  }

  /** Nothing forward lies to the left of straight up but straight up itself. */
  lemma VerticalForward(vx: real, vy: real, wx: real, wy: real)
    requires vx == 0.0 && vy > 0.0 && Forward(wx, wy) && Det(vx, vy, wx, wy) >= 0.0
    ensures wx == 0.0 && wy >= 0.0
  {
    if wx > 0.0 {
      PositiveProduct(vy, wx);
    }
  }

  lemma TurnsComposeStrict(ux: real, uy: real, vx: real, vy: real, wx: real, wy: real)
    requires Forward(ux, uy) && Forward(vx, vy) && Forward(wx, wy)
    requires Det(ux, uy, vx, vy) > 0.0 && Det(vx, vy, wx, wy) > 0.0
    ensures Det(ux, uy, wx, wy) > 0.0
  {
    Pluecker(ux, uy, vx, vy, wx, wy);
    if vx > 0.0 {
      if wx > 0.0 {
        PositiveProduct(Det(ux, uy, vx, vy), wx);
        NonNegativeProduct(Det(vx, vy, wx, wy), ux);
      } else {
        if ux == 0.0 {
          NonNegativeProduct(uy, vx);
        }
        PositiveProduct(Det(vx, vy, wx, wy), ux);
        NonNegativeProduct(Det(ux, uy, vx, vy), wx);
      }
      SignOfFactor(Det(ux, uy, wx, wy), vx);
    } else if vy > 0.0 {
      VerticalForward(vx, vy, wx, wy);
    }
  }

  /** Cross products only depend on differences, from whichever corner they are taken. */
  lemma CrossFrom(a: Point, b: Point, c: Point)
    ensures Cross(a, b, c) == Det(b.x - a.x, b.y - a.y, c.x - b.x, c.y - b.y)
  {
  }

  lemma CrossInto(a: Point, b: Point, c: Point)
    ensures Cross(a, b, c) == Det(b.x - c.x, b.y - c.y, b.x - a.x, b.y - a.y)
  {
  }

  lemma CrossAway(a: Point, b: Point, c: Point)
    ensures Cross(a, b, c) == Det(a.x - c.x, a.y - c.y, b.x - a.x, b.y - a.y)
  {
  }

  /** Reading both vectors backwards changes nothing. */
  lemma DetNegate(ux: real, uy: real, vx: real, vy: real)
    ensures Det(-ux, -uy, -vx, -vy) == Det(ux, uy, vx, vy)
  {
  }

  /** Both turn lemmas on points, for either scan direction. */
  lemma TurnsOnPoints(up: bool, a: Point, b: Point, c: Point, d: Point, e: Point, f: Point)
    requires Ahead(up, a, b) && Ahead(up, c, d) && Ahead(up, e, f) && c != d
    requires Det(b.x - a.x, b.y - a.y, d.x - c.x, d.y - c.y) >= 0.0
    requires Det(d.x - c.x, d.y - c.y, f.x - e.x, f.y - e.y) >= 0.0
    ensures Det(b.x - a.x, b.y - a.y, f.x - e.x, f.y - e.y) >= 0.0
    ensures Det(b.x - a.x, b.y - a.y, d.x - c.x, d.y - c.y) > 0.0 &&
            Det(d.x - c.x, d.y - c.y, f.x - e.x, f.y - e.y) > 0.0 ==>
            Det(b.x - a.x, b.y - a.y, f.x - e.x, f.y - e.y) > 0.0
  {
    TurnsOnVectors(up, b.x - a.x, b.y - a.y, d.x - c.x, d.y - c.y, f.x - e.x, f.y - e.y);
  }

  lemma TurnsOnVectors(up: bool, ux: real, uy: real, vx: real, vy: real, wx: real, wy: real)
    requires if up then Forward(ux, uy) && Forward(vx, vy) && Forward(wx, wy)
             else Forward(-ux, -uy) && Forward(-vx, -vy) && Forward(-wx, -wy)
    requires vx != 0.0 || vy != 0.0
    requires Det(ux, uy, vx, vy) >= 0.0 && Det(vx, vy, wx, wy) >= 0.0
    ensures Det(ux, uy, wx, wy) >= 0.0
    ensures Det(ux, uy, vx, vy) > 0.0 && Det(vx, vy, wx, wy) > 0.0 ==> Det(ux, uy, wx, wy) > 0.0
  {
    if up {
      TurnsCompose(ux, uy, vx, vy, wx, wy);
      if Det(ux, uy, vx, vy) > 0.0 && Det(vx, vy, wx, wy) > 0.0 {
        TurnsComposeStrict(ux, uy, vx, vy, wx, wy);
      }
    } else {
      DetNegate(ux, uy, vx, vy);
      DetNegate(vx, vy, wx, wy);
      DetNegate(ux, uy, wx, wy);
      TurnsCompose(-ux, -uy, -vx, -vy, -wx, -wy);
      if Det(ux, uy, vx, vy) > 0.0 && Det(vx, vy, wx, wy) > 0.0 {
        TurnsComposeStrict(-ux, -uy, -vx, -vy, -wx, -wy);
      }
    }
  }

  /** A convex chain extended by p on its last edge has p left of the edge before. */
  lemma LeftOfPrevious(up: bool, a: Point, b: Point, c: Point, p: Point)
    requires Ahead(up, a, b) && Ahead(up, b, c) && Ahead(up, b, p)
    requires Cross(a, b, c) > 0.0 && Cross(b, c, p) > 0.0
    ensures Cross(a, b, p) > 0.0
  {
    CrossFrom(a, b, c);
    CrossFrom(a, b, p);
    assert b != c;
    TurnsOnPoints(up, a, b, b, c, b, p);
  }

  /** Popping u from under p keeps every later point on or left of the new edge to p. */
  lemma PopKeepsLeft(up: bool, t: Point, u: Point, p: Point, q: Point)
    requires Ahead(up, t, u) && Ahead(up, u, p) && Ahead(up, t, p) && Ahead(up, t, q)
    requires Cross(t, u, p) <= 0.0 && Cross(t, u, q) >= 0.0
    requires Ahead(up, u, q) ==> Cross(u, p, q) >= 0.0
    ensures Cross(t, p, q) >= 0.0
  {
    if Ahead(up, u, q) {
      CrossSplit(t, u, p, q);
    } else {
      assert Cross(t, p, u) == -Cross(t, u, p);
      TurnsOnPoints(up, t, p, t, u, t, q);
    }
  }

  lemma CrossSplit(t: Point, u: Point, p: Point, q: Point)
    ensures Cross(t, p, q) == Cross(u, p, q) - Cross(t, u, p) + Cross(t, u, q)
  {
  }

  /** Earlier points stay left of the edge that p adds behind a strict left turn. */
  lemma PushKeepsLeft(up: bool, s: Point, t: Point, p: Point, q: Point)
    requires Ahead(up, s, t) && Ahead(up, t, p) && Ahead(up, q, t)
    requires Cross(s, t, p) > 0.0 && Cross(s, t, q) >= 0.0
    ensures Cross(t, p, q) >= 0.0
  {
    CrossFrom(s, t, p);
    assert s != t;
    CrossInto(s, t, q);
    CrossAway(t, p, q);
    TurnsOnPoints(up, q, t, s, t, t, p);
  }

  // ---------------------------------------------------------------------------
  // One half of the hull
  // ---------------------------------------------------------------------------

  /** Every turn of the chain is strictly left. */
  ghost predicate StrictlyLeft(chain: seq<Point>) {
    forall i :: 0 <= i < |chain| - 2 ==> Cross(chain[i], chain[i + 1], chain[i + 2]) > 0.0
  }

  /** Every point lies on or left of every edge of the chain. */
  ghost predicate AllLeft(chain: seq<Point>, points: seq<Point>) {
    forall i, q :: 0 <= i < |chain| - 1 && q in points ==> Cross(chain[i], chain[i + 1], q) >= 0.0
  }

  /** The chain over a sorted run of points: its ends, its turns and what lies left of it. */
  ghost predicate IsHalfHull(up: bool, points: seq<Point>, chain: seq<Point>) {
    && points != [] && chain != []
    && chain[0] == points[0] && chain[|chain| - 1] == points[|points| - 1]
    && Sorted(up, chain)
    && (forall v :: v in chain ==> v in points)
    && StrictlyLeft(chain)
    && AllLeft(chain, points)
  }

  lemma {:induction false} LeftOfChain(up: bool, chain: seq<Point>, p: Point, i: nat)
    requires i + 1 < |chain| && Sorted(up, chain) && StrictlyLeft(chain)
    requires forall v :: v in chain ==> Ahead(up, v, p)
    requires Cross(chain[|chain| - 2], chain[|chain| - 1], p) > 0.0
    ensures Cross(chain[i], chain[i + 1], p) > 0.0
    decreases |chain| - i
  {
    if i + 2 < |chain| {
      LeftOfChain(up, chain, p, i + 1);
      LeftOfPrevious(up, chain[i], chain[i + 1], chain[i + 2], p);
    }
  }

  /** Pushing p on the popped chain restores the invariant for the longer run. */
  lemma PushExtends(up: bool, points: seq<Point>, chain: seq<Point>, p: Point)
    requires Sorted(up, points + [p]) && Popping(up, points, chain, p)
    requires |chain| < 2 || Cross(chain[|chain| - 2], chain[|chain| - 1], p) > 0.0
    ensures IsHalfHull(up, points + [p], chain + [p])
  {
    var run, next, t := points + [p], chain + [p], chain[|chain| - 1];
    LastIsAhead(up, points, p);
    assert Sorted(up, next);
    forall i, q | 0 <= i < |next| - 1 && q in run
      ensures Cross(next[i], next[i + 1], q) >= 0.0
    {
      if i < |chain| - 1 {
        if q !in points {
          LeftOfChain(up, chain, p, i);
        }
      } else {
        NewEdgeLeft(up, points, chain, p, q);
      }
    }
  }

  lemma LastIsAhead(up: bool, points: seq<Point>, p: Point)
    requires Sorted(up, points + [p])
    ensures forall v :: v in points ==> Ahead(up, v, p)
  {
    forall v | v in points ensures Ahead(up, v, p) {
      var i :| 0 <= i < |points| && points[i] == v;
      assert (points + [p])[i] == v && (points + [p])[|points|] == p;
    }
  }

  lemma NewEdgeLeft(up: bool, points: seq<Point>, chain: seq<Point>, p: Point, q: Point)
    requires Sorted(up, points + [p]) && Popping(up, points, chain, p)
    requires |chain| < 2 || Cross(chain[|chain| - 2], chain[|chain| - 1], p) > 0.0
    requires q in points + [p]
    ensures Cross(chain[|chain| - 1], p, q) >= 0.0
  {
    var t := chain[|chain| - 1];
    if q !in points {
      assert q == p && Cross(t, p, p) == 0.0;
    } else if |chain| == 1 {
      var i :| 0 <= i < |points| && points[i] == q;
      assert Ahead(up, (points + [p])[0], (points + [p])[i]);
    } else if !Ahead(up, t, q) {
      LastIsAhead(up, points, p);
      PushKeepsLeft(up, chain[|chain| - 2], t, p, q);
    }
  }

  /** The state between pops: a convex chain with every later point left of the edge from its top to p. */
  ghost predicate Popping(up: bool, run: seq<Point>, chain: seq<Point>, p: Point) {
    && run != [] && chain != [] && chain[0] == run[0]
    && Sorted(up, chain) && StrictlyLeft(chain) && AllLeft(chain, run)
    && (forall v :: v in chain ==> v in run)
    && (forall q :: q in run && Ahead(up, chain[|chain| - 1], q) ==> Cross(chain[|chain| - 1], p, q) >= 0.0)
  }

  /** The inner loop: pop while the turn into p is not strictly left. */
  method PopToLeftTurn(ghost up: bool, ghost run: seq<Point>, whole: seq<Point>, p: Point) returns (chain: seq<Point>)
    requires Popping(up, run, whole, p) && forall v :: v in run ==> Ahead(up, v, p)
    ensures Popping(up, run, chain, p)
    ensures |chain| < 2 || Cross(chain[|chain| - 2], chain[|chain| - 1], p) > 0.0
  {
    chain := whole;
    while |chain| >= 2 && Cross(chain[|chain| - 2], chain[|chain| - 1], p) <= 0.0
      invariant Popping(up, run, chain, p)
      decreases |chain|
    {
      PopStep(up, run, chain, p);
      chain := chain[..|chain| - 1];
    }
  }

  /** One scan of the hull: pop to a left turn, then push. */
  method HalfHull(ghost up: bool, points: seq<Point>) returns (chain: seq<Point>)
    requires points != [] && Sorted(up, points)
    ensures IsHalfHull(up, points, chain)
    ensures |points| >= 2 ==> |chain| >= 2
  {
    chain := [points[0]];
    assert points[..1] == [points[0]];
    for k := 1 to |points|
      invariant IsHalfHull(up, points[..k], chain)
      invariant k >= 2 ==> |chain| >= 2
    {
      ghost var run := points[..k];
      assert run + [points[k]] == points[..k + 1];
      LastIsAhead(up, run, points[k]);
      TopStartsLeft(up, run, points[k]);
      chain := PopToLeftTurn(up, run, chain, points[k]);
      PushExtends(up, run, chain, points[k]);
      chain := chain + [points[k]];
    }
    assert points[..|points|] == points;
  }

  /** Before any pop, only copies of the last point lie ahead of it. */
  lemma TopStartsLeft(up: bool, run: seq<Point>, p: Point)
    requires run != [] && Sorted(up, run)
    ensures var t := run[|run| - 1];
            forall q :: q in run && Ahead(up, t, q) ==> Cross(t, p, q) >= 0.0
  {
    var t := run[|run| - 1];
    forall q | q in run && Ahead(up, t, q) ensures Cross(t, p, q) >= 0.0 {
      var i :| 0 <= i < |run| && run[i] == q;
      assert Ahead(up, run[i], run[|run| - 1]);
      assert q == t && Cross(t, p, t) == 0.0;
    }
  }

  lemma PopStep(up: bool, run: seq<Point>, chain: seq<Point>, p: Point)
    requires |chain| >= 2 && Popping(up, run, chain, p)
    requires forall v :: v in run ==> Ahead(up, v, p)
    requires Cross(chain[|chain| - 2], chain[|chain| - 1], p) <= 0.0
    ensures Popping(up, run, chain[..|chain| - 1], p)
  {
    var popped := chain[..|chain| - 1];
    PrefixOfChain(chain, run);
    forall q | q in run && Ahead(up, popped[|popped| - 1], q) ensures Cross(popped[|popped| - 1], p, q) >= 0.0 {
      PopLeft(up, run, chain, p, q);
    }
  }

  lemma PrefixOfChain(chain: seq<Point>, run: seq<Point>)
    requires |chain| >= 2 && StrictlyLeft(chain) && AllLeft(chain, run)
    ensures var popped := chain[..|chain| - 1]; StrictlyLeft(popped) && AllLeft(popped, run)
  {
    var popped := chain[..|chain| - 1];
    forall i | 0 <= i < |popped| - 2 ensures Cross(popped[i], popped[i + 1], popped[i + 2]) > 0.0 {
      assert Cross(chain[i], chain[i + 1], chain[i + 2]) > 0.0;
    }
    forall i, q | 0 <= i < |popped| - 1 && q in run ensures Cross(popped[i], popped[i + 1], q) >= 0.0 {
      assert Cross(chain[i], chain[i + 1], q) >= 0.0;
    }
  }

  lemma PopLeft(up: bool, run: seq<Point>, chain: seq<Point>, p: Point, q: Point)
    requires |chain| >= 2 && Popping(up, run, chain, p)
    requires forall v :: v in run ==> Ahead(up, v, p)
    requires Cross(chain[|chain| - 2], chain[|chain| - 1], p) <= 0.0
    requires q in run && Ahead(up, chain[|chain| - 2], q)
    ensures Cross(chain[|chain| - 2], p, q) >= 0.0
  {
    var i := |chain| - 2;
    assert chain[i] in run && chain[i + 1] in run;
    assert Cross(chain[i], chain[i + 1], q) >= 0.0;
    PopKeepsLeft(up, chain[i], chain[i + 1], p, q);
  }

  // ---------------------------------------------------------------------------
  // Joining the halves
  // ---------------------------------------------------------------------------

  function Next(n: nat, i: nat): (j: nat)
    requires i < n
    ensures j < n
  {
    if i + 1 == n then 0 else i + 1
  }

  /** Every turn of the closed polygon is strictly left. */
  ghost predicate StrictlyConvex(hull: seq<Point>) {
    forall i :: 0 <= i < |hull| ==>
                  var j := Next(|hull|, i);
                  Cross(hull[i], hull[j], hull[Next(|hull|, j)]) > 0.0
  }

  /** Every point lies on or left of every edge of the closed polygon. */
  ghost predicate Encloses(hull: seq<Point>, points: seq<Point>) {
    forall i, q :: 0 <= i < |hull| && q in points ==> Cross(hull[i], hull[Next(|hull|, i)], q) >= 0.0
  }

  /** Vectors parallel to a common nonzero vector are parallel. */
  lemma ParallelTransitive(dx: real, dy: real, ux: real, uy: real, vx: real, vy: real)
    requires dx != 0.0 || dy != 0.0
    requires Det(dx, dy, ux, uy) == 0.0 && Det(dx, dy, vx, vy) == 0.0
    ensures Det(ux, uy, vx, vy) == 0.0
  {
    Pluecker(ux, uy, dx, dy, vx, vy);
    assert Det(ux, uy, dx, dy) == -Det(dx, dy, ux, uy);
    var m := Det(ux, uy, vx, vy);
    assert m * dx == 0.0 && m * dy == 0.0;
    ZeroFactor(m, dx);
    ZeroFactor(m, dy);
  }

  lemma ZeroFactor(m: real, d: real)
    requires m * d == 0.0
    ensures d != 0.0 ==> m == 0.0
  {
  }

  /** Points all on one proper line span no triangle. */
  lemma OnLineCollinear(l: Point, m: Point, points: seq<Point>)
    requires l != m && forall q :: q in points ==> Cross(l, m, q) == 0.0
    ensures !NonCollinear(points)
  {
    forall a, b, c | a in points && b in points && c in points ensures Cross(a, b, c) == 0.0 {
      DetDifference(m.x - l.x, m.y - l.y, l, a, b);
      DetDifference(m.x - l.x, m.y - l.y, l, a, c);
      ParallelTransitive(m.x - l.x, m.y - l.y, b.x - a.x, b.y - a.y, c.x - a.x, c.y - a.y);
    }
  }

  lemma DetDifference(dx: real, dy: real, l: Point, a: Point, b: Point)
    ensures Det(dx, dy, b.x - a.x, b.y - a.y) ==
            Det(dx, dy, b.x - l.x, b.y - l.y) - Det(dx, dy, a.x - l.x, a.y - l.y)
  {
  }

  /** A forward vector d and a backward vector -e that are parallel leave only their own line on both left sides. */
  lemma OppositeEdges(dx: real, dy: real, ex: real, ey: real, wx: real, wy: real)
    requires Forward(dx, dy) && Forward(ex, ey) && (dx != 0.0 || dy != 0.0) && (ex != 0.0 || ey != 0.0)
    requires Det(dx, dy, ex, ey) == 0.0
    requires Det(dx, dy, wx, wy) >= 0.0 && Det(ex, ey, wx, wy) <= 0.0
    ensures Det(dx, dy, wx, wy) == 0.0
  {
    Pluecker(dx, dy, ex, ey, wx, wy);
    var f, g := Det(dx, dy, wx, wy), Det(ex, ey, wx, wy);
    assert f * ex == g * dx && f * ey == g * dy;
    if f > 0.0 {
      if ex > 0.0 {
        PositiveProduct(f, ex);
        NonNegativeProduct(-g, dx);
      } else {
        PositiveProduct(f, ey);
        if dx > 0.0 {
          PositiveProduct(dx, ey);
        } else {
          NonNegativeProduct(-g, dy);
        }
      }
    }
  }

  /** Where the halves meet, the turn is strictly left unless all points are on a line. */
  lemma Junction(up: bool, points: seq<Point>, l: Point, m: Point, u: Point)
    requires l != m && u != m && Ahead(up, l, m) && Ahead(up, u, m) && u in points
    requires forall q :: q in points ==> Cross(l, m, q) >= 0.0 && Cross(m, u, q) >= 0.0
    requires NonCollinear(points)
    ensures Cross(l, m, u) > 0.0
  {
    if Cross(l, m, u) <= 0.0 {
      forall q | q in points ensures Cross(l, m, q) == 0.0 {
        JunctionLine(up, l, m, u, q);
      }
      OnLineCollinear(l, m, points);
    }
  }

  lemma JunctionLine(up: bool, l: Point, m: Point, u: Point, q: Point)
    requires l != m && u != m && Ahead(up, l, m) && Ahead(up, u, m)
    requires Cross(l, m, u) == 0.0
    requires Cross(l, m, q) >= 0.0 && Cross(m, u, q) >= 0.0
    ensures Cross(l, m, q) == 0.0
  {
    CrossFrom(l, m, q);
    CrossFrom(l, m, u);
    var dx, dy, ex, ey, wx, wy := m.x - l.x, m.y - l.y, m.x - u.x, m.y - u.y, q.x - m.x, q.y - m.y;
    assert Det(dx, dy, ex, ey) == -Det(dx, dy, u.x - m.x, u.y - m.y);
    assert Det(ex, ey, wx, wy) == -Cross(m, u, q);
    if up {
      OppositeEdges(dx, dy, ex, ey, wx, wy);
    } else {
      DetNegate(dx, dy, ex, ey);
      DetNegate(dx, dy, wx, wy);
      DetNegate(ex, ey, wx, wy);
      OppositeEdges(-dx, -dy, -ex, -ey, -wx, -wy);
    }
  }

  /** With a proper triangle among the points, the extremes and the chain steps are distinct. */
  lemma ChainSteps(up: bool, points: seq<Point>, chain: seq<Point>)
    requires IsHalfHull(up, points, chain) && Sorted(up, points) && NonCollinear(points)
    ensures |chain| >= 2
    ensures chain[0] != chain[1] && chain[|chain| - 2] != chain[|chain| - 1]
  {
    if points[0] == points[|points| - 1] {
      forall q | q in points ensures q == points[0] {
        var i :| 0 <= i < |points| && points[i] == q;
        assert Ahead(up, points[0], points[i]) && Ahead(up, points[i], points[|points| - 1]);
      }
      CrossRepeats(points[0], points[0]);
    }
    if |chain| >= 3 {
      assert Cross(chain[0], chain[1], chain[2]) > 0.0;
      var k := |chain| - 3;
      assert Cross(chain[k], chain[k + 1], chain[k + 2]) > 0.0;
      CrossRepeats(chain[0], chain[2]);
      CrossRepeats(chain[k], chain[k + 1]);
    }
  }

  lemma CrossRepeats(a: Point, b: Point)
    ensures Cross(a, a, b) == 0.0 && Cross(a, b, b) == 0.0
  {
  }

  function Reverse(s: seq<Point>): (r: seq<Point>)
    ensures |r| == |s| && forall i :: 0 <= i < |s| ==> r[i] == s[|s| - 1 - i]
  {
    seq(|s|, i requires 0 <= i < |s| => s[|s| - 1 - i])
  }

  lemma ReverseSorted(s: seq<Point>)
    requires Sorted(true, s)
    ensures Sorted(false, Reverse(s)) && forall q :: q in Reverse(s) <==> q in s
  {
    forall q | q in s ensures q in Reverse(s) {
      var i :| 0 <= i < |s| && s[i] == q;
      assert Reverse(s)[|s| - 1 - i] == q;
    }
  }

  /** The two halves fit together over one set of points. */
  ghost predicate Halves(points: seq<Point>, lower: seq<Point>, upper: seq<Point>) {
    && |lower| >= 2 && |upper| >= 2
    && IsHalfHull(true, points, lower) && IsHalfHull(false, Reverse(points), upper)
    && Sorted(true, points)
  }

  function Join(lower: seq<Point>, upper: seq<Point>): seq<Point>
    requires |lower| >= 1 && |upper| >= 1
  {
    lower[..|lower| - 1] + upper[..|upper| - 1]
  }

  /** An edge of the joined polygon is an edge of one of the halves. */
  lemma JoinedEdge(points: seq<Point>, lower: seq<Point>, upper: seq<Point>, i: nat)
    requires Halves(points, lower, upper)
    requires i < |Join(lower, upper)|
    ensures var hull, k := Join(lower, upper), i - (|lower| - 1);
            var j := Next(|hull|, i);
            if i < |lower| - 1 then hull[i] == lower[i] && hull[j] == lower[i + 1]
            else hull[i] == upper[k] && hull[j] == upper[k + 1]
  {
    assert upper[0] == points[|points| - 1] == lower[|lower| - 1];
    assert upper[|upper| - 1] == points[0] == lower[0];
  }

  lemma JoinedEncloses(points: seq<Point>, lower: seq<Point>, upper: seq<Point>)
    requires Halves(points, lower, upper)
    ensures Encloses(Join(lower, upper), points)
  {
    ReverseSorted(points);
    var hull := Join(lower, upper);
    forall i, q | 0 <= i < |hull| && q in points ensures Cross(hull[i], hull[Next(|hull|, i)], q) >= 0.0 {
      JoinedEdge(points, lower, upper, i);
    }
  }

  /** One edge of a half: its direction, its end, and what lies left of it. */
  lemma EdgeLeft(up: bool, run: seq<Point>, chain: seq<Point>, i: nat)
    requires IsHalfHull(up, run, chain) && i + 1 < |chain|
    ensures Ahead(up, chain[i], chain[i + 1]) && chain[i + 1] in run
    ensures forall q :: q in run ==> Cross(chain[i], chain[i + 1], q) >= 0.0
  {
    assert chain[i + 1] in chain;
  }

  /** The turn from one half into the other. */
  lemma TurnBetweenHalves(up: bool, points: seq<Point>, there: seq<Point>, back: seq<Point>, a: seq<Point>,
                          b: seq<Point>)
    requires IsHalfHull(up, there, a) && IsHalfHull(!up, back, b) && Sorted(up, there) && Sorted(!up, back)
    requires (forall q :: q in there <==> q in points) && (forall q :: q in back <==> q in points)
    requires NonCollinear(points) && NonCollinear(there) && NonCollinear(back)
    requires a[|a| - 1] == b[0]
    ensures |a| >= 2 && |b| >= 2 && Cross(a[|a| - 2], a[|a| - 1], b[1]) > 0.0
  {
    ChainSteps(up, there, a);
    ChainSteps(!up, back, b);
    var i := |a| - 2;
    EdgeLeft(up, there, a, i);
    EdgeLeft(!up, back, b, 0);
    Junction(up, points, a[i], a[i + 1], b[1]);
  }

  lemma FarTurn(points: seq<Point>, lower: seq<Point>, upper: seq<Point>)
    requires Halves(points, lower, upper) && NonCollinear(points)
    ensures Cross(lower[|lower| - 2], lower[|lower| - 1], upper[1]) > 0.0
  {
    ReverseSorted(points);
    ReverseNonCollinear(points);
    TurnBetweenHalves(true, points, points, Reverse(points), lower, upper);
  }

  lemma NearTurn(points: seq<Point>, lower: seq<Point>, upper: seq<Point>)
    requires Halves(points, lower, upper) && NonCollinear(points)
    ensures Cross(upper[|upper| - 2], upper[|upper| - 1], lower[1]) > 0.0
  {
    ReverseSorted(points);
    ReverseNonCollinear(points);
    TurnBetweenHalves(false, points, Reverse(points), points, upper, lower);
  }

  lemma JoinedTurn(points: seq<Point>, lower: seq<Point>, upper: seq<Point>, i: nat)
    requires Halves(points, lower, upper) && NonCollinear(points)
    requires i < |Join(lower, upper)|
    ensures var hull := Join(lower, upper);
            var j := Next(|hull|, i);
            Cross(hull[i], hull[j], hull[Next(|hull|, j)]) > 0.0
  {
    var hull := Join(lower, upper);
    var j := Next(|hull|, i);
    JoinedEdge(points, lower, upper, i);
    JoinedEdge(points, lower, upper, j);
    if i == |lower| - 2 {
      FarTurn(points, lower, upper);
    } else if j == 0 {
      NearTurn(points, lower, upper);
    } else if i < |lower| - 1 {
      InnerTurn(true, points, lower, i);
    } else {
      InnerTurn(false, Reverse(points), upper, i - (|lower| - 1));
    }
  }

  lemma InnerTurn(up: bool, points: seq<Point>, chain: seq<Point>, i: nat)
    requires IsHalfHull(up, points, chain) && i + 2 < |chain|
    ensures Cross(chain[i], chain[i + 1], chain[i + 2]) > 0.0
  {
  }

  lemma ReverseNonCollinear(points: seq<Point>)
    requires NonCollinear(points)
    ensures NonCollinear(Reverse(points))
  {
    var a, b, c :| a in points && b in points && c in points && Cross(a, b, c) != 0.0;
    forall q | q in points ensures q in Reverse(points) {
      var i :| 0 <= i < |points| && points[i] == q;
      assert Reverse(points)[|points| - 1 - i] == q;
    }
  }

  // ---------------------------------------------------------------------------
  // No vertex twice
  // ---------------------------------------------------------------------------

  /** Neighbours on a half are distinct. */
  lemma NeighboursDistinct(up: bool, points: seq<Point>, chain: seq<Point>, i: nat)
    requires IsHalfHull(up, points, chain) && Sorted(up, points) && NonCollinear(points) && i + 1 < |chain|
    ensures chain[i] != chain[i + 1]
  {
    ChainSteps(up, points, chain);
    if i + 2 < |chain| {
      CrossRepeats(chain[i], chain[i + 2]);
      assert Cross(chain[i], chain[i + 1], chain[i + 2]) > 0.0;
    }
  }

  lemma LexAntisymmetric(up: bool, a: Point, b: Point)
    requires Ahead(up, a, b) && Ahead(up, b, a)
    ensures a == b
  {
  }

  /** A half passes no point twice. */
  lemma ChainDistinct(up: bool, points: seq<Point>, chain: seq<Point>, i: nat, j: nat)
    requires IsHalfHull(up, points, chain) && Sorted(up, points) && NonCollinear(points) && i < j < |chain|
    ensures chain[i] != chain[j]
  {
    NeighboursDistinct(up, points, chain, i);
    if chain[i] == chain[j] {
      assert Ahead(up, chain[i], chain[i + 1]) && Ahead(up, chain[i + 1], chain[j]);
      LexAntisymmetric(up, chain[i], chain[i + 1]);
    }
  }

  /** Where a turns left into a forward e, the way back along e lies right of a. */
  lemma WayBackIsRight(ax: real, ay: real, ex: real, ey: real, dx: real, dy: real)
    requires Forward(ex, ey) && (ex != 0.0 || ey != 0.0) && Forward(-dx, -dy) && (dx != 0.0 || dy != 0.0)
    requires Det(ax, ay, ex, ey) > 0.0 && Det(ex, ey, dx, dy) == 0.0
    ensures Det(ax, ay, dx, dy) < 0.0
  {
    var s, t := Det(ax, ay, ex, ey), Det(ax, ay, dx, dy);
    Pluecker(ax, ay, ex, ey, dx, dy);
    assert t * ex == s * dx && t * ey == s * dy;
    if t >= 0.0 {
      NonNegativeProduct(t, ex);
      if dx < 0.0 {
        PositiveProduct(-dx, s);
      } else {
        PositiveProduct(-dy, s);
        if ey >= 0.0 {
          NonNegativeProduct(t, ey);
        } else {
          SignOfFactor(ex, s);
        }
      }
    }
  }

  /** An inner vertex of one half is no inner vertex of the other. */
  lemma InnerVerticesApart(points: seq<Point>, lower: seq<Point>, upper: seq<Point>, i: nat, j: nat)
    requires Halves(points, lower, upper) && NonCollinear(points)
    requires 0 < i < |lower| - 1 && 0 < j < |upper| - 1
    ensures lower[i] != upper[j]
  {
    if lower[i] == upper[j] {
      var v, l0, l1, u1 := lower[i], lower[i - 1], lower[i + 1], upper[j + 1];
      ReverseSorted(points);
      ReverseNonCollinear(points);
      EdgeLeft(true, points, lower, i - 1);
      EdgeLeft(true, points, lower, i);
      EdgeLeft(false, Reverse(points), upper, j);
      NeighboursDistinct(true, points, lower, i);
      NeighboursDistinct(false, Reverse(points), upper, j);
      MeetingEdges(l0, v, l1, u1);
    }
  }

  /**
   Two edges that leave v in opposite directions, each with the other's end on its left,
   shut out a left turn into v.
   */
  lemma MeetingEdges(l0: Point, v: Point, l1: Point, u1: Point)
    requires v != l1 && v != u1 && Ahead(true, v, l1) && Ahead(false, v, u1)
    requires Cross(l0, v, l1) > 0.0 && Cross(v, l1, u1) >= 0.0 && Cross(v, u1, l1) >= 0.0
    ensures Cross(l0, v, u1) < 0.0
  {
    CrossFrom(l0, v, l1);
    CrossFrom(l0, v, u1);
    CrossSwap(v, l1, u1);
    WayBackIsRight(v.x - l0.x, v.y - l0.y, l1.x - v.x, l1.y - v.y, u1.x - v.x, u1.y - v.y);
  }

  lemma CrossSwap(v: Point, a: Point, b: Point)
    ensures Cross(v, b, a) == -Cross(v, a, b)
  {
  }

  ghost predicate NoVertexTwice(hull: seq<Point>) {
    forall i, j :: 0 <= i < j < |hull| ==> hull[i] != hull[j]
  }

  /** The halves run from the least point to the greatest and back. */
  lemma MinimumEndsUpper(points: seq<Point>, lower: seq<Point>, upper: seq<Point>)
    requires Halves(points, lower, upper)
    ensures upper[|upper| - 1] == lower[0] && upper[0] == lower[|lower| - 1]
  {
  }

  /** Without its last point, a half meets the other half nowhere. */
  lemma HalvesApart(points: seq<Point>, lower: seq<Point>, upper: seq<Point>, i: nat, j: nat)
    requires Halves(points, lower, upper) && NonCollinear(points) && i < |lower| - 1 && j < |upper| - 1
    ensures lower[i] != upper[j]
  {
    if i == 0 {
      MinimumEndsUpper(points, lower, upper);
      UpperDistinct(points, lower, upper, j, |upper| - 1);
    } else if j == 0 {
      MinimumEndsUpper(points, lower, upper);
      ChainDistinct(true, points, lower, i, |lower| - 1);
    } else {
      InnerVerticesApart(points, lower, upper, i, j);
    }
  }

  lemma UpperDistinct(points: seq<Point>, lower: seq<Point>, upper: seq<Point>, i: nat, j: nat)
    requires Halves(points, lower, upper) && NonCollinear(points) && i < j < |upper|
    ensures upper[i] != upper[j]
  {
    ReverseSorted(points);
    ReverseNonCollinear(points);
    ChainDistinct(false, Reverse(points), upper, i, j);
  }

  lemma JoinedDistinct(points: seq<Point>, lower: seq<Point>, upper: seq<Point>)
    requires Halves(points, lower, upper) && NonCollinear(points)
    ensures NoVertexTwice(Join(lower, upper))
  {
    var hull, n := Join(lower, upper), |lower| - 1;
    forall i, j | 0 <= i < j < |hull| ensures hull[i] != hull[j] {
      if j < n {
        ChainDistinct(true, points, lower, i, j);
      } else if i < n {
        HalvesApart(points, lower, upper, i, j - n);
      } else {
        UpperDistinct(points, lower, upper, i - n, j - n);
      }
    }
  }

  /** Two halves of a single edge each enclose only collinear points. */
  lemma FlatHalves(points: seq<Point>, lower: seq<Point>, upper: seq<Point>)
    requires Halves(points, lower, upper) && |lower| == 2 && |upper| == 2
    ensures !NonCollinear(points)
  {
    if NonCollinear(points) {
      ChainSteps(true, points, lower);
      ReverseSorted(points);
      var a, b := lower[0], lower[1];
      forall q | q in points ensures Cross(a, b, q) == 0.0 {
        assert Cross(lower[0], lower[1], q) >= 0.0 && Cross(upper[0], upper[1], q) >= 0.0;
        CrossReversed(a, b, q);
      }
      OnLineCollinear(a, b, points);
    }
  }

  lemma CrossReversed(a: Point, b: Point, q: Point)
    ensures Cross(b, a, q) == -Cross(a, b, q)
  {
  }

  /** A half with an inner vertex has a proper triangle. */
  lemma BentHalf(up: bool, run: seq<Point>, chain: seq<Point>, points: seq<Point>)
    requires IsHalfHull(up, run, chain) && |chain| >= 3
    requires forall q :: q in run ==> q in points
    ensures NonCollinear(points)
  {
    assert Cross(chain[0], chain[1], chain[2]) > 0.0;
    assert chain[0] in points && chain[1] in points && chain[2] in points;
  }

  // ---------------------------------------------------------------------------
  // Sorting and the hull
  // ---------------------------------------------------------------------------

  function Insert(p: Point, s: seq<Point>): (r: seq<Point>)
    requires Sorted(true, s)
    ensures Sorted(true, r) && multiset(r) == multiset(s) + multiset{p}
  {
    if s == [] then [p]
    else if LexLe(s[|s| - 1], p) then
      assert forall i :: 0 <= i < |s| ==> Ahead(true, s[i], s[|s| - 1]);
      s + [p]
    else
      var init, last := s[..|s| - 1], s[|s| - 1];
      var r := Insert(p, init);
      assert s == init + [last];
      InsertBelow(p, init, r, last);
      r + [last]
  }

  lemma InsertBelow(p: Point, init: seq<Point>, r: seq<Point>, last: Point)
    requires multiset(r) == multiset(init) + multiset{p} && LexLe(p, last)
    requires forall q :: q in init ==> LexLe(q, last)
    ensures forall q :: q in r ==> LexLe(q, last)
  {
    forall q | q in r ensures LexLe(q, last) {
      assert q in multiset(r);
    }
  }

  /** Python's sorted on a list of coordinate pairs. */
  function Sort(s: seq<Point>): (r: seq<Point>)
    ensures Sorted(true, r) && multiset(r) == multiset(s)
  {
    if s == [] then [] else
      assert s == s[..|s| - 1] + [s[|s| - 1]];
      Insert(s[|s| - 1], Sort(s[..|s| - 1]))
  }

  ghost predicate Least(p: Point, points: seq<Point>) {
    forall q :: q in points ==> LexLe(p, q)
  }

  ghost predicate Greatest(p: Point, points: seq<Point>) {
    forall q :: q in points ==> LexLe(q, p)
  }

  /** The polygon starts at the least point; one with two vertices ends at the greatest. */
  lemma HullStarts(points: seq<Point>, sorted: seq<Point>, lower: seq<Point>, upper: seq<Point>)
    requires forall q :: q in sorted <==> q in points
    requires Halves(sorted, lower, upper)
    ensures var hull := Join(lower, upper); Least(hull[0], points) && (|hull| == 2 ==> Greatest(hull[1], points))
  {
    MinimumEndsUpper(sorted, lower, upper);
    var first, last := sorted[0], sorted[|sorted| - 1];
    forall q | q in points ensures LexLe(first, q) && LexLe(q, last) {
      var i :| 0 <= i < |sorted| && sorted[i] == q;
      assert Ahead(true, sorted[0], sorted[i]) && Ahead(true, sorted[i], sorted[|sorted| - 1]);
    }
  }

  /** The convex hull of a list of points, counterclockwise. */
  method Hull(points: seq<Point>) returns (hull: seq<Point>)
    ensures |points| <= 1 ==> hull == points
    ensures forall v :: v in hull ==> v in points
    ensures |points| >= 2 ==> (|hull| >= 3 <==> NonCollinear(points)) && |hull| >= 2
    ensures |points| >= 2 ==> Encloses(hull, points)
    ensures NonCollinear(points) ==> StrictlyConvex(hull) && NoVertexTwice(hull)
    ensures |points| >= 2 ==> Least(hull[0], points) && (!NonCollinear(points) ==> Greatest(hull[1], points))
  {
    if |points| <= 1 {
      return points;
    }
    var sorted := Sort(points);
    SortedMembers(points, sorted);
    var lower := HalfHull(true, sorted);
    ReverseSorted(sorted);
    var upper := HalfHull(false, Reverse(sorted));
    hull := lower[..|lower| - 1] + upper[..|upper| - 1];
    HullShape(points, sorted, lower, upper);
    HullStarts(points, sorted, lower, upper);
  }

  lemma SortedMembers(points: seq<Point>, sorted: seq<Point>)
    requires multiset(points) == multiset(sorted)
    ensures |sorted| == |points| && forall q :: q in sorted <==> q in points
  {
    assert |multiset(points)| == |multiset(sorted)|;
    forall q ensures q in sorted <==> q in points {
      assert q in multiset(points) <==> q in multiset(sorted);
    }
  }

  lemma HullShape(points: seq<Point>, sorted: seq<Point>, lower: seq<Point>, upper: seq<Point>)
    requires forall q :: q in sorted <==> q in points
    requires Halves(sorted, lower, upper)
    ensures var hull := Join(lower, upper);
            && (forall v :: v in hull ==> v in points)
            && (|hull| >= 3 <==> NonCollinear(points))
            && Encloses(hull, points)
            && (NonCollinear(points) ==> StrictlyConvex(hull) && NoVertexTwice(hull))
  {
    var hull := Join(lower, upper);
    ReverseSorted(sorted);
    JoinedEncloses(sorted, lower, upper);
    assert NonCollinear(points) <==> NonCollinear(sorted);
    if |lower| >= 3 {
      BentHalf(true, sorted, lower, points);
    } else if |upper| >= 3 {
      BentHalf(false, Reverse(sorted), upper, points);
    } else {
      FlatHalves(sorted, lower, upper);
    }
    if NonCollinear(points) {
      JoinedDistinct(sorted, lower, upper);
      forall i | 0 <= i < |hull|
        ensures var j := Next(|hull|, i); Cross(hull[i], hull[j], hull[Next(|hull|, j)]) > 0.0
      {
        JoinedTurn(sorted, lower, upper, i);
      }
    }
  }
}
