/**
 * Model of graphicsmath/gmath.py: the point record `vec`, the ray-casting
 * point-in-polygon test, and the world-space rectangle `square` with its two
 * subdivision generators (vertical strips and horizontal bands).
 *
 * Floating-point values are modelled as exact reals.
 */
module Geometry {

  datatype Option<+T> = None | Some(value: T)

  /** `vec`: a point with two or three coordinates; `z` exists only on three. */
  datatype Vec = Vec2(x: real, y: real) | Vec3(x: real, y: real, z: real)

  /** A polygon vertex, the `(x, y)` tuple the polygon test unpacks. */
  datatype Point = Point(x: real, y: real)

  function Min(a: real, b: real): (r: real)
    ensures r <= a && r <= b && (r == a || r == b)
  {
    if a <= b then a else b
  }

  function Max(a: real, b: real): (r: real)
    ensures r >= a && r >= b && (r == a || r == b)
  {
    if a <= b then b else a
  }

  // ---------------------------------------------------------------------------
  // point_inside_polygon
  // ---------------------------------------------------------------------------

  /**
   * The x coordinate where the horizontal line at height `y` meets the line
   * through `p1` and `p2`; defined only for an edge that is not horizontal.
   */
  function XIntersect(y: real, p1: Point, p2: Point): (r: real)
    requires p1.y != p2.y
    ensures (r - p1.x) * (p2.y - p1.y) == (y - p1.y) * (p2.x - p1.x)
  {
    (y - p1.y) * (p2.x - p1.x) / (p2.y - p1.y) + p1.x
  }

  /**
   * Whether the edge from `p1` to `p2` flips `inside` for the point (x, y):
   * the nested tests of the loop body. The intersection is only evaluated
   * once the first two tests hold, and those already force a sloped edge, so
   * the division inside XIntersect is never by zero.
   */
  predicate Toggles(x: real, y: real, p1: Point, p2: Point)
  {
    y > Min(p1.y, p2.y) && y <= Max(p1.y, p2.y) && x <= Max(p1.x, p2.x) &&
    (p1.x == p2.x || x <= XIntersect(y, p1, p2))
  }

  /**
   * The pair (p1, p2) looked at in iteration `i` of the loop, for
   * i in 0..|poly|: p1 starts as poly[0] and then trails p2 by one step.
   */
  function VertexPair(poly: seq<Point>, i: nat): (Point, Point)
    requires 0 < |poly| && i <= |poly|
  {
    (if i == 0 then poly[0] else poly[(i - 1) % |poly|], poly[i % |poly|])
  }

  /** Number of toggles made by the first `k` iterations of the loop. */
  function ToggleCount(x: real, y: real, poly: seq<Point>, k: nat): nat
    requires 0 < |poly| && k <= |poly| + 1
  {
    if k == 0 then 0
    else
      var (p1, p2) := VertexPair(poly, k - 1);
      ToggleCount(x, y, poly, k - 1) + (if Toggles(x, y, p1, p2) then 1 else 0)
  }

  /** The answer of the test: an odd number of toggles over all n + 1 pairs. */
  predicate InsidePolygon(x: real, y: real, poly: seq<Point>)
    requires 0 < |poly|
  {
    ToggleCount(x, y, poly, |poly| + 1) % 2 == 1
  }

  /**
   * point_inside_polygon(x, y, poly). An empty polygon makes the source fail
   * on `poly[0]`, hence the precondition.
   */
  method PointInsidePolygon(x: real, y: real, poly: seq<Point>) returns (inside: bool)
    requires 0 < |poly|
    ensures inside == InsidePolygon(x, y, poly)
  {
    var n := |poly|;
    inside := false;
    var p1x, p1y := poly[0].x, poly[0].y;
    for i := 0 to n + 1
      invariant i <= n ==> Point(p1x, p1y) == VertexPair(poly, i).0
      invariant inside == (ToggleCount(x, y, poly, i) % 2 == 1)
    {
      var p2x, p2y := poly[i % n].x, poly[i % n].y;
      assert VertexPair(poly, i) == (Point(p1x, p1y), Point(p2x, p2y));
      ghost var toggles := Toggles(x, y, Point(p1x, p1y), Point(p2x, p2y));
      ghost var before := inside;
      if y > Min(p1y, p2y) {
        if y <= Max(p1y, p2y) {
          if x <= Max(p1x, p2x) {
            if p1y != p2y {
              var xinters := XIntersect(y, Point(p1x, p1y), Point(p2x, p2y));
              if p1x == p2x || x <= xinters {
                inside := !inside;
              }
            } else {
              // Min(p1y, p2y) < y <= Max(p1y, p2y) rules out a horizontal edge.
              assert false;
            }
          }
        }
      }
      assert inside == (before != toggles);
      assert ToggleCount(x, y, poly, i + 1) == ToggleCount(x, y, poly, i) + (if toggles then 1 else 0);
      p1x, p1y := p2x, p2y;
    }
  }

  /** The loop looks at n + 1 pairs: first a degenerate pair, then every edge
      in order, the last one closing the polygon back to poly[0]. */
  lemma VertexPairsCloseThePolygon(poly: seq<Point>, i: nat)
    requires 0 < |poly| && i <= |poly|
    ensures i == 0 ==> VertexPair(poly, i) == (poly[0], poly[0])
    ensures 0 < i < |poly| ==> VertexPair(poly, i) == (poly[i - 1], poly[i])
    ensures i == |poly| ==> VertexPair(poly, i) == (poly[|poly| - 1], poly[0])
  {
  }

  /** A toggle happens only on a sloped edge, so no division by zero occurs. */
  lemma ToggleNeedsSlopedEdge(x: real, y: real, p1: Point, p2: Point)
    ensures Toggles(x, y, p1, p2) ==> p1.y != p2.y
    ensures p1 == p2 ==> !Toggles(x, y, p1, p2)
  {
  }

  /** Every vertex of every visited pair belongs to the polygon. */
  lemma VertexPairInPolygon(poly: seq<Point>, i: nat)
    requires 0 < |poly| && i <= |poly|
    ensures VertexPair(poly, i).0 in poly && VertexPair(poly, i).1 in poly
  {
  }

  /** The point lies below or level with every vertex, above every vertex,
      or to the right of every vertex. */
  predicate OutsideBoundingBox(x: real, y: real, poly: seq<Point>)
  {
    (forall v :: v in poly ==> y <= v.y) ||
    (forall v :: v in poly ==> y > v.y) ||
    (forall v :: v in poly ==> x > v.x)
  }

  /** Outside the bounding box no pair ever toggles. */
  lemma {:induction false} NoTogglesOutsideBoundingBox(x: real, y: real, poly: seq<Point>, k: nat)
    requires 0 < |poly| && k <= |poly| + 1
    requires OutsideBoundingBox(x, y, poly)
    ensures ToggleCount(x, y, poly, k) == 0
  {
    if k > 0 {
      NoTogglesOutsideBoundingBox(x, y, poly, k - 1);
      var (p1, p2) := VertexPair(poly, k - 1);
      VertexPairInPolygon(poly, k - 1);
      assert !Toggles(x, y, p1, p2);
    }
  }

  /** point_inside_polygon is False outside the bounding box. */
  lemma OutsideBoundingBoxIsOutside(x: real, y: real, poly: seq<Point>)
    requires 0 < |poly|
    requires OutsideBoundingBox(x, y, poly)
    ensures !InsidePolygon(x, y, poly)
  {
    NoTogglesOutsideBoundingBox(x, y, poly, |poly| + 1);
  }

  // ---------------------------------------------------------------------------
  // square
  // ---------------------------------------------------------------------------

  /**
   * `square`: a world-space rectangle with its corners, its pixel size and
   * the square it was cut from (`g`).
   */
  datatype Square = Square(topLeft: Vec, bottomRight: Vec, w: int, h: int, g: Option<Square>)

  /** `square()` with every argument defaulted. */
  function DefaultSquare(): (sq: Square)
    ensures sq.topLeft.x == -1.0 && sq.topLeft.y == 1.0
    ensures sq.bottomRight.x == 1.0 && sq.bottomRight.y == -1.0
    ensures Size(sq) == (1, 1) && sq.g == None
  {
    Square(Vec2(-1.0, 1.0), Vec2(1.0, -1.0), 1, 1, None)
  }

  /** `size()`: the pixel size (w, h), the one part of a square that the
      corners and the parent leave open. */
  function Size(sq: Square): (r: (int, int))
    ensures Square(sq.topLeft, sq.bottomRight, r.0, r.1, sq.g) == sq
  {
    (sq.w, sq.h)
  }

  /**
   * `points`: the four corners in the order top-left, top-right,
   * bottom-left, bottom-right.
   */
  function Points(sq: Square): (r: seq<Point>)
    ensures |r| == 4
    ensures forall p :: p in r ==> (p.x == sq.topLeft.x || p.x == sq.bottomRight.x) &&
                                   (p.y == sq.topLeft.y || p.y == sq.bottomRight.y)
  {
    [Point(sq.topLeft.x, sq.topLeft.y),
     Point(sq.bottomRight.x, sq.topLeft.y),
     Point(sq.topLeft.x, sq.bottomRight.y),
     Point(sq.bottomRight.x, sq.bottomRight.y)]
  }

  /**
   * `xinters` lies on the edge between the two vertices when y is within the
   * edge's y range.
   */
  lemma XIntersectOnEdge(y: real, p1: Point, p2: Point)
    requires p1.y != p2.y && Min(p1.y, p2.y) <= y <= Max(p1.y, p2.y)
    ensures Min(p1.x, p2.x) <= XIntersect(y, p1, p2) <= Max(p1.x, p2.x)
  {
    var d, u, dx := p2.y - p1.y, y - p1.y, p2.x - p1.x;
    var t := u / d;
    assert t * d == u;
    assert (1.0 - t) * d == d - u;
    if d > 0.0 {
      assert 0.0 <= u <= d;
    } else {
      assert d <= u <= 0.0;
    }
    assert 0.0 <= t <= 1.0;
    assert (t * dx) * d == u * dx;
    assert u * dx / d == t * dx;
    assert XIntersect(y, p1, p2) == p1.x + t * dx;
    var rest := 1.0 - t;
    assert 0.0 <= rest && t * dx + rest * dx == dx;
    if dx >= 0.0 {
      assert 0.0 <= t * dx && 0.0 <= rest * dx;
    } else {
      assert t * dx <= 0.0 && rest * dx <= 0.0;
    }
  }

  /**
   * The bow tie that `points` describes lies within the rectangle: left of
   * both corners' x, both diagonals toggle; outside the y range or right of
   * the rectangle, nothing toggles.
   */
  lemma BowTieWithinBox(sq: Square, p: Point)
    ensures InsidePolygon(p.x, p.y, Points(sq)) ==> InBox(sq, p)
  {
    var poly := Points(sq);
    var x, y := p.x, p.y;
    var l, r := sq.topLeft.x, sq.bottomRight.x;
    var t, b := sq.topLeft.y, sq.bottomRight.y;
    var inY := Min(t, b) < y <= Max(t, b);
    if !inY || x > Max(l, r) {
      assert OutsideBoundingBox(x, y, poly);
      OutsideBoundingBoxIsOutside(x, y, poly);
    } else if x <= Min(l, r) {
      assert VertexPair(poly, 0) == (poly[0], poly[0]);
      assert VertexPair(poly, 1) == (poly[0], poly[1]);
      assert VertexPair(poly, 2) == (poly[1], poly[2]);
      assert VertexPair(poly, 3) == (poly[2], poly[3]);
      assert VertexPair(poly, 4) == (poly[3], poly[0]);
      if l != r {
        XIntersectOnEdge(y, poly[1], poly[2]);
        XIntersectOnEdge(y, poly[3], poly[0]);
      }
      assert Toggles(x, y, poly[1], poly[2]);
      assert Toggles(x, y, poly[3], poly[0]);
      assert ToggleCount(x, y, poly, 1) == 0;
      assert ToggleCount(x, y, poly, 2) == 0;
      assert ToggleCount(x, y, poly, 3) == 1;
      assert ToggleCount(x, y, poly, 4) == 1;
      assert ToggleCount(x, y, poly, 5) == 2;
    }
  }

  /** `__contains__` as written: the polygon test over `points`. It never
      reports a point outside the rectangle. */
  predicate ContainsAsWritten(sq: Square, p: Point)
    ensures ContainsAsWritten(sq, p) ==> InBox(sq, p)
  {
    BowTieWithinBox(sq, p);
    InsidePolygon(p.x, p.y, Points(sq))
  }

  /**
   * The order of `points` is not a walk around the rectangle: the second and
   * third corners are diagonally opposite, so the polygon is a bow tie. For
   * the default square both the centre (0, 0) and the interior point
   * (0.5, 0), off both diagonals, are reported outside.
   */
  lemma ContainsAsWrittenMissesCentre()
    ensures !ContainsAsWritten(DefaultSquare(), Point(0.0, 0.0))
    ensures InBox(DefaultSquare(), Point(0.5, 0.0)) && !ContainsAsWritten(DefaultSquare(), Point(0.5, 0.0))
  {
    var poly := Points(DefaultSquare());
    var x, y := 0.0, 0.0;
    assert !Toggles(x, y, poly[0], poly[0]);
    assert !Toggles(x, y, poly[0], poly[1]);
    assert Toggles(x, y, poly[1], poly[2]);
    assert !Toggles(x, y, poly[2], poly[3]);
    assert Toggles(x, y, poly[3], poly[0]);
    assert ToggleCount(x, y, poly, 1) == 0;
    assert ToggleCount(x, y, poly, 2) == 0;
    assert ToggleCount(x, y, poly, 3) == 1;
    assert ToggleCount(x, y, poly, 4) == 1;
    assert ToggleCount(x, y, poly, 5) == 2;
    x := 0.5;
    assert !Toggles(x, y, poly[0], poly[0]);
    assert !Toggles(x, y, poly[0], poly[1]);
    assert !Toggles(x, y, poly[1], poly[2]);
    assert !Toggles(x, y, poly[2], poly[3]);
    assert !Toggles(x, y, poly[3], poly[0]);
    assert ToggleCount(x, y, poly, 1) == 0;
    assert ToggleCount(x, y, poly, 2) == 0;
    assert ToggleCount(x, y, poly, 3) == 0;
    assert ToggleCount(x, y, poly, 4) == 0;
    assert ToggleCount(x, y, poly, 5) == 0;
  }

  /** The four corners walked around the rectangle: top-left, top-right,
      bottom-right, bottom-left. */
  function CyclicPoints(sq: Square): (r: seq<Point>)
    ensures |r| == 4
    ensures r[0].y == r[1].y && r[1].x == r[2].x && r[2].y == r[3].y && r[3].x == r[0].x
  {
    [Point(sq.topLeft.x, sq.topLeft.y),
     Point(sq.bottomRight.x, sq.topLeft.y),
     Point(sq.bottomRight.x, sq.bottomRight.y),
     Point(sq.topLeft.x, sq.bottomRight.y)]
  }

  /** `points` and the cyclic walk differ only in the order of the last two
      corners. */
  lemma PointsSwapsLastTwoCorners(sq: Square)
    ensures var c := CyclicPoints(sq); Points(sq) == [c[0], c[1], c[3], c[2]]
  {
  }

  /** `__contains__` with the corners in cyclic order. */
  predicate Contains(sq: Square, p: Point)
  {
    InsidePolygon(p.x, p.y, CyclicPoints(sq))
  }

  /** The half-open box of the rectangle: left edge and bottom edge excluded. */
  predicate InBox(sq: Square, p: Point)
  {
    Min(sq.topLeft.x, sq.bottomRight.x) < p.x <= Max(sq.topLeft.x, sq.bottomRight.x) &&
    Min(sq.topLeft.y, sq.bottomRight.y) < p.y <= Max(sq.topLeft.y, sq.bottomRight.y)
  }

  /** With cyclic corners, the polygon test is exactly the rectangle. */
  lemma ContainsIsInBox(sq: Square, p: Point)
    ensures Contains(sq, p) <==> InBox(sq, p)
  {
    var poly := CyclicPoints(sq);
    var x, y := p.x, p.y;
    var vertical := Min(poly[0].y, poly[2].y) < y <= Max(poly[0].y, poly[2].y);
    assert !Toggles(x, y, poly[0], poly[0]);
    assert !Toggles(x, y, poly[0], poly[1]);
    assert Toggles(x, y, poly[1], poly[2]) <==> vertical && x <= sq.bottomRight.x;
    assert !Toggles(x, y, poly[2], poly[3]);
    assert Toggles(x, y, poly[3], poly[0]) <==> vertical && x <= sq.topLeft.x;
    assert VertexPair(poly, 0) == (poly[0], poly[0]);
    assert VertexPair(poly, 1) == (poly[0], poly[1]);
    assert VertexPair(poly, 2) == (poly[1], poly[2]);
    assert VertexPair(poly, 3) == (poly[2], poly[3]);
    assert VertexPair(poly, 4) == (poly[3], poly[0]);
    assert ToggleCount(x, y, poly, 1) == 0;
    assert ToggleCount(x, y, poly, 2) == 0;
    assert ToggleCount(x, y, poly, 3) == (if Toggles(x, y, poly[1], poly[2]) then 1 else 0);
    assert ToggleCount(x, y, poly, 4) == ToggleCount(x, y, poly, 3);
    assert ToggleCount(x, y, poly, 5) ==
      (if Toggles(x, y, poly[1], poly[2]) then 1 else 0) +
      (if Toggles(x, y, poly[3], poly[0]) then 1 else 0);
  }

  /** The corrected test finds the centre of the default square. */
  lemma ContainsFindsCentre()
    ensures Contains(DefaultSquare(), Point(0.0, 0.0))
  {
    ContainsIsInBox(DefaultSquare(), Point(0.0, 0.0));
  }

  // ---------------------------------------------------------------------------
  // Subdivision: __floordiv__ (vertical strips) and __truediv__ (bands)
  // ---------------------------------------------------------------------------

  /** Python's `a // b` for a positive divisor: the floor of a / b. */
  function FloorDiv(a: int, b: int): (q: int)
    requires b > 0
    ensures q * b <= a < q * b + b
  {
    a / b
  }

  /** The k-th of `val` equally spaced cut points from a to b. */
  function Cut(a: real, b: real, val: int, k: int): real
    requires val > 0
  {
    a + (b - a) * (k as real) / (val as real)
  }

  /** Both corners are two-component vectors, as the unpacking in the
      generators demands. */
  predicate Planar(sq: Square)
  {
    sq.topLeft.Vec2? && sq.bottomRight.Vec2?
  }

  /** The square that `sq // val` yields in iteration i. */
  function Strip(sq: Square, val: int, i: int): Square
    requires val > 0
  {
    var x0, y1 := sq.topLeft.x, sq.topLeft.y;
    var x1, y0 := sq.bottomRight.x, sq.bottomRight.y;
    Square(Vec2(Cut(x0, x1, val, i), y1), Vec2(Cut(x0, x1, val, i + 1), y0),
           FloorDiv(sq.w, val), sq.h, Some(sq))
  }

  /** The square that `sq / val` yields in iteration i. */
  function Band(sq: Square, val: int, i: int): Square
    requires val > 0
  {
    var x0, y0 := sq.topLeft.x, sq.topLeft.y;
    var x1, y1 := sq.bottomRight.x, sq.bottomRight.y;
    Square(Vec2(x0, Cut(y0, y1, val, i)), Vec2(x1, Cut(y0, y1, val, i + 1)),
           sq.w, FloorDiv(sq.h, val), Some(sq))
  }

  /**
   * `sq // val`: the generator run to exhaustion. It yields one strip per i in
   * 0..val-1 (none when val <= 0); the strips share edges, span the parent's
   * x extent, keep its y extent and have pixel size (w // val, h).
   */
  method FloorDivide(sq: Square, val: int) returns (strips: seq<Square>)
    requires Planar(sq)
    ensures |strips| == if val > 0 then val else 0
    ensures forall i :: 0 <= i < |strips| ==> strips[i] == Strip(sq, val, i)
    ensures forall i :: 0 <= i < |strips| ==>
      strips[i].topLeft.y == sq.topLeft.y && strips[i].bottomRight.y == sq.bottomRight.y &&
      Size(strips[i]) == (FloorDiv(sq.w, val), sq.h) && strips[i].g == Some(sq)
    ensures forall i :: 0 <= i < |strips| - 1 ==> strips[i].bottomRight.x == strips[i + 1].topLeft.x
    ensures |strips| > 0 ==>
      strips[0].topLeft.x == sq.topLeft.x && strips[|strips| - 1].bottomRight.x == sq.bottomRight.x
  {
    var x0, y1 := sq.topLeft.x, sq.topLeft.y;
    var x1, y0 := sq.bottomRight.x, sq.bottomRight.y;
    strips := [];
    var i := 0;
    while i < val
      invariant 0 <= i <= if val > 0 then val else 0
      invariant |strips| == i
      invariant forall j :: 0 <= j < i ==> strips[j] == Strip(sq, val, j)
    {
      var tl := Vec2(x0 + (x1 - x0) * (i as real) / (val as real), y1);
      var br := Vec2(x0 + (x1 - x0) * ((i + 1) as real) / (val as real), y0);
      assert tl == Strip(sq, val, i).topLeft;
      assert br == Strip(sq, val, i).bottomRight;
      assert sq.w / val == Strip(sq, val, i).w;
      assert Square(tl, br, sq.w / val, sq.h, Some(sq)) == Strip(sq, val, i);
      strips := strips + [Square(tl, br, sq.w / val, sq.h, Some(sq))];
      i := i + 1;
    }
    if val > 0 {
      CutEnds(x0, x1, val);
    }
  }

  /**
   * `sq / val`: one band per i in 0..val-1 (none when val <= 0); the bands
   * share edges, span the parent's y extent, keep its x extent and have
   * pixel size (w, h // val).
   */
  method TrueDivide(sq: Square, val: int) returns (bands: seq<Square>)
    requires Planar(sq)
    ensures |bands| == if val > 0 then val else 0
    ensures forall i :: 0 <= i < |bands| ==> bands[i] == Band(sq, val, i)
    ensures forall i :: 0 <= i < |bands| ==>
      bands[i].topLeft.x == sq.topLeft.x && bands[i].bottomRight.x == sq.bottomRight.x &&
      Size(bands[i]) == (sq.w, FloorDiv(sq.h, val)) && bands[i].g == Some(sq)
    ensures forall i :: 0 <= i < |bands| - 1 ==> bands[i].bottomRight.y == bands[i + 1].topLeft.y
    ensures |bands| > 0 ==>
      bands[0].topLeft.y == sq.topLeft.y && bands[|bands| - 1].bottomRight.y == sq.bottomRight.y
  {
    var x0, y0 := sq.topLeft.x, sq.topLeft.y;
    var x1, y1 := sq.bottomRight.x, sq.bottomRight.y;
    bands := [];
    var i := 0;
    while i < val
      invariant 0 <= i <= if val > 0 then val else 0
      invariant |bands| == i
      invariant forall j :: 0 <= j < i ==> bands[j] == Band(sq, val, j)
    {
      var tl := Vec2(x0, y0 + (y1 - y0) * (i as real) / (val as real));
      var br := Vec2(x1, y0 + (y1 - y0) * ((i + 1) as real) / (val as real));
      assert tl == Band(sq, val, i).topLeft;
      assert br == Band(sq, val, i).bottomRight;
      assert sq.h / val == Band(sq, val, i).h;
      assert Square(tl, br, sq.w, sq.h / val, Some(sq)) == Band(sq, val, i);
      bands := bands + [Square(tl, br, sq.w, sq.h / val, Some(sq))];
      i := i + 1;
    }
    if val > 0 {
      CutEnds(y0, y1, val);
    }
  }

  /** The first cut point is a and the last is b. */
  lemma CutEnds(a: real, b: real, val: int)
    requires val > 0
    ensures Cut(a, b, val, 0) == a && Cut(a, b, val, val) == b
  {
  }

  /** From a < b the cut points strictly increase. */
  lemma CutIncreasing(a: real, b: real, val: int, i: int, j: int)
    requires val > 0 && a < b && i < j
    ensures Cut(a, b, val, i) < Cut(a, b, val, j)
  {
  }

  /** Cut points from a to b, read backwards, are the cut points from b to a. */
  lemma CutReversed(a: real, b: real, val: int, k: int)
    requires val > 0
    ensures Cut(a, b, val, k) == Cut(b, a, val, val - k)
  {
  }

  /** p lies in the i-th cut interval (Cut(i), Cut(i+1)]. */
  predicate InCut(a: real, b: real, val: int, i: int, p: real)
    requires val > 0
  {
    Cut(a, b, val, i) < p <= Cut(a, b, val, i + 1)
  }

  /** Every p in (a, Cut(k)] lies in some cut interval with index below k. */
  lemma {:induction false} CutCoversUpTo(a: real, b: real, val: int, k: int, p: real)
    requires val > 0 && a < b && 0 <= k
    requires a < p <= Cut(a, b, val, k)
    ensures exists i :: 0 <= i < k && InCut(a, b, val, i, p)
  {
    CutEnds(a, b, val);
    if k == 0 {
      assert false;
    } else if Cut(a, b, val, k - 1) < p {
      assert InCut(a, b, val, k - 1, p);
    } else {
      CutCoversUpTo(a, b, val, k - 1, p);
    }
  }

  /** For a < b no point lies in two different cut intervals. */
  lemma CutDisjoint(a: real, b: real, val: int, i: int, j: int, p: real)
    requires val > 0 && a < b
    requires InCut(a, b, val, i, p) && InCut(a, b, val, j, p)
    ensures i == j
  {
    if i + 1 < j {
      CutIncreasing(a, b, val, i + 1, j);
    } else if j + 1 < i {
      CutIncreasing(a, b, val, j + 1, i);
    }
  }

  /**
   * For a < b, the intervals (Cut(i), Cut(i+1)] for i in 0..val-1 partition
   * (a, b]: each point of it lies in exactly one of them.
   */
  lemma CutPartition(a: real, b: real, val: int, p: real)
    requires val > 0 && a < b && a < p <= b
    ensures exists i :: 0 <= i < val && InCut(a, b, val, i, p)
    ensures forall i, j :: InCut(a, b, val, i, p) && InCut(a, b, val, j, p) ==> i == j
  {
    CutEnds(a, b, val);
    CutCoversUpTo(a, b, val, val, p);
    forall i, j | InCut(a, b, val, i, p) && InCut(a, b, val, j, p)
      ensures i == j
    {
      CutDisjoint(a, b, val, i, j, p);
    }
  }

  /** A point is in strip i exactly when it is in the parent's y range and
      its x lies in the i-th cut interval of the parent's x range. */
  lemma StripContains(sq: Square, val: int, i: int, p: Point)
    requires val > 0 && sq.topLeft.x < sq.bottomRight.x
    ensures Contains(Strip(sq, val, i), p) <==>
      InCut(sq.topLeft.x, sq.bottomRight.x, val, i, p.x) &&
      Min(sq.topLeft.y, sq.bottomRight.y) < p.y <= Max(sq.topLeft.y, sq.bottomRight.y)
  {
    CutIncreasing(sq.topLeft.x, sq.bottomRight.x, val, i, i + 1);
    ContainsIsInBox(Strip(sq, val, i), p);
  }

  /** A point is in band i exactly when it is in the parent's x range and
      its y lies in cut interval val - 1 - i from the bottom edge up. */
  lemma BandContains(sq: Square, val: int, i: int, p: Point)
    requires val > 0 && sq.bottomRight.y < sq.topLeft.y
    ensures Contains(Band(sq, val, i), p) <==>
      InCut(sq.bottomRight.y, sq.topLeft.y, val, val - 1 - i, p.y) &&
      Min(sq.topLeft.x, sq.bottomRight.x) < p.x <= Max(sq.topLeft.x, sq.bottomRight.x)
  {
    var a, b := sq.bottomRight.y, sq.topLeft.y;
    CutReversed(b, a, val, i);
    CutReversed(b, a, val, i + 1);
    CutIncreasing(a, b, val, val - 1 - i, val - i);
    ContainsIsInBox(Band(sq, val, i), p);
  }

  /** The cut intervals with index in 0..val-1 lie within (a, b]. */
  lemma CutWithinEnds(a: real, b: real, val: int, i: int, p: real)
    requires val > 0 && a < b && 0 <= i < val && InCut(a, b, val, i, p)
    ensures a < p <= b
  {
    CutEnds(a, b, val);
    if 0 < i { CutIncreasing(a, b, val, 0, i); }
    if i + 1 < val { CutIncreasing(a, b, val, i + 1, val); }
  }

  /**
   * The strips of a rectangle whose left edge lies left of its right edge
   * tile it: a point is in the rectangle exactly when it is in one of the val
   * strips, and no point is in two strips.
   */
  lemma StripsPartition(sq: Square, val: int, p: Point)
    requires val > 0 && sq.topLeft.x < sq.bottomRight.x
    ensures Contains(sq, p) <==> exists i :: 0 <= i < val && Contains(Strip(sq, val, i), p)
    ensures forall i, j :: (Contains(Strip(sq, val, i), p) && Contains(Strip(sq, val, j), p)) ==> i == j
  {
    var a, b := sq.topLeft.x, sq.bottomRight.x;
    ContainsIsInBox(sq, p);
    if Contains(sq, p) {
      CutPartition(a, b, val, p.x);
      var k :| 0 <= k < val && InCut(a, b, val, k, p.x);
      StripContains(sq, val, k, p);
    }
    if exists i :: 0 <= i < val && Contains(Strip(sq, val, i), p) {
      var k :| 0 <= k < val && Contains(Strip(sq, val, k), p);
      StripContains(sq, val, k, p);
      CutWithinEnds(a, b, val, k, p.x);
    }
    forall i, j | Contains(Strip(sq, val, i), p) && Contains(Strip(sq, val, j), p)
      ensures i == j
    {
      StripContains(sq, val, i, p);
      StripContains(sq, val, j, p);
      CutDisjoint(a, b, val, i, j, p.x);
    }
  }

  /**
   * The bands of a rectangle whose top edge lies above its bottom edge tile
   * it: a point is in the rectangle exactly when it is in one of the val
   * bands, and no point is in two bands.
   */
  lemma BandsPartition(sq: Square, val: int, p: Point)
    requires val > 0 && sq.bottomRight.y < sq.topLeft.y
    ensures Contains(sq, p) <==> exists i :: 0 <= i < val && Contains(Band(sq, val, i), p)
    ensures forall i, j :: (Contains(Band(sq, val, i), p) && Contains(Band(sq, val, j), p)) ==> i == j
  {
    var a, b := sq.bottomRight.y, sq.topLeft.y;
    ContainsIsInBox(sq, p);
    if Contains(sq, p) {
      CutPartition(a, b, val, p.y);
      var k :| 0 <= k < val && InCut(a, b, val, k, p.y);
      BandContains(sq, val, val - 1 - k, p);
    }
    if exists i :: 0 <= i < val && Contains(Band(sq, val, i), p) {
      var k :| 0 <= k < val && Contains(Band(sq, val, k), p);
      BandContains(sq, val, k, p);
      CutWithinEnds(a, b, val, val - 1 - k, p.y);
    }
    forall i, j | Contains(Band(sq, val, i), p) && Contains(Band(sq, val, j), p)
      ensures i == j
    {
      BandContains(sq, val, i, p);
      BandContains(sq, val, j, p);
      CutDisjoint(a, b, val, val - 1 - i, val - 1 - j, p.y);
    }
  }

  /**
   * The pixel sizes follow integer division: the strips' widths together fall
   * short of the parent's width by less than val columns (the remainder is
   * dropped, not given to the last strip); likewise for the bands' heights.
   */
  lemma PixelSizesFollowFloorDivision(sq: Square, val: int, i: int)
    requires val > 0
    ensures Size(Strip(sq, val, i)).1 == sq.h && Size(Band(sq, val, i)).0 == sq.w
    ensures sq.w - val < val * Size(Strip(sq, val, i)).0 <= sq.w
    ensures sq.h - val < val * Size(Band(sq, val, i)).1 <= sq.h
  {
  }
}
