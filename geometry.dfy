/**
 * The geometry kernel of the reflection simulator (src/utils/rayUtils.ts):
 * reflecting a point across a mirror's line, intersecting two infinite lines,
 * and the reflection point of a light path object -> mirror -> viewer.
 *
 * Coordinates are reals.  A mirror angle θ enters as the pair c = cos θ,
 * s = sin θ; the properties that need a genuine angle assume c*c + s*s == 1.
 */
module Geometry {
  import opened Wrappers

  datatype Point = Point(x: real, y: real)

  /** Length of the second point of the mirror line when the caller gives none. */
  const DefaultMirrorWidth: real := 200.0

  function Sub(p: Point, q: Point): Point { Point(p.x - q.x, p.y - q.y) }

  function Cross(u: Point, v: Point): real { u.x * v.y - u.y * v.x }

  function Dot(u: Point, v: Point): real { u.x * v.x + u.y * v.y }

  function SqDist(p: Point, q: Point): real { Dot(Sub(p, q), Sub(p, q)) }

  /** (c, s) is the direction of a genuine angle. */
  predicate Unit(c: real, s: real) { c * c + s * s == 1.0 }

  /** p lies on the infinite line through a and b. */
  predicate OnLine(p: Point, a: Point, b: Point) { Cross(Sub(b, a), Sub(p, a)) == 0.0 }

  /** p lies on the line through origin with direction (c, s). */
  predicate OnMirrorLine(p: Point, origin: Point, c: real, s: real) {
    Cross(Point(c, s), Sub(p, origin)) == 0.0
  }

  /** The point origin + t*(c, s). */
  function Along(origin: Point, c: real, s: real, t: real): Point {
    Point(origin.x + t * c, origin.y + t * s)
  }

  /**
   * reflectAcrossMirror: move P into the mirror's frame (translate by -origin,
   * rotate by -angle), negate the local y, rotate back and translate back.
   */
  function Reflect(p: Point, origin: Point, c: real, s: real): (r: Point)
    ensures c == 1.0 && s == 0.0 ==> r == Point(p.x, 2.0 * origin.y - p.y)
  {
    var dx := p.x - origin.x;
    var dy := p.y - origin.y;
    var x1 := dx * c + dy * s;
    var y1 := -dx * s + dy * c;
    var x2 := x1;
    var y2 := -y1;
    Point(x2 * c - y2 * s + origin.x, x2 * s + y2 * c + origin.y)
  }

  /** Rotate by -θ, negate y, rotate back: the x coordinate of the matrix [[C, S], [S, -C]] applied to (dx, dy). */
  lemma RotateBackX(dx: real, dy: real, c: real, s: real)
    ensures (dx * c + dy * s) * c - -(-dx * s + dy * c) * s == (c * c - s * s) * dx + 2.0 * c * s * dy
  {
    assert (dx * c + dy * s) * c == dx * (c * c) + dy * (c * s);
    assert (-dx * s + dy * c) * s == -dx * (s * s) + dy * (c * s);
  }

  /** Rotate by -θ, negate y, rotate back: the y coordinate of the matrix [[C, S], [S, -C]] applied to (dx, dy). */
  lemma RotateBackY(dx: real, dy: real, c: real, s: real)
    ensures (dx * c + dy * s) * s + -(-dx * s + dy * c) * c == 2.0 * c * s * dx - (c * c - s * s) * dy
  {
    assert (dx * c + dy * s) * s == dx * (c * s) + dy * (s * s);
    assert (-dx * s + dy * c) * c == -dx * (c * s) + dy * (c * c);
  }

  /** The reflection is the affine map origin + M (p - origin), M = [[C, S], [S, -C]]. */
  lemma ReflectMatrix(p: Point, origin: Point, c: real, s: real)
    ensures var d := Sub(p, origin);
            var cc := c * c - s * s;
            var ss := 2.0 * c * s;
            Reflect(p, origin, c, s) == Point(origin.x + cc * d.x + ss * d.y, origin.y + ss * d.x - cc * d.y)
  {
    var dx := p.x - origin.x;
    var dy := p.y - origin.y;
    RotateBackX(dx, dy, c, s);
    RotateBackY(dx, dy, c, s);
    var r := Reflect(p, origin, c, s);
    assert r.x == (dx * c + dy * s) * c - -(-dx * s + dy * c) * s + origin.x;
    assert r.y == (dx * c + dy * s) * s + -(-dx * s + dy * c) * c + origin.y;
  }

  /** For a genuine angle, C*C + S*S == 1 where C = cos 2θ, S = sin 2θ. */
  lemma DoubleAngleUnit(c: real, s: real)
    requires Unit(c, s)
    ensures (c * c - s * s) * (c * c - s * s) + (2.0 * c * s) * (2.0 * c * s) == 1.0
  {
    assert (c * c - s * s) * (c * c - s * s) + (2.0 * c * s) * (2.0 * c * s)
        == (c * c + s * s) * (c * c + s * s);
  }

  /** Reflecting twice across the same mirror gives back the original point. */
  lemma ReflectInvolution(p: Point, origin: Point, c: real, s: real)
    requires Unit(c, s)
    ensures Reflect(Reflect(p, origin, c, s), origin, c, s) == p
  {
    var q := Reflect(p, origin, c, s);
    var cc := c * c - s * s;
    var ss := 2.0 * c * s;
    var d := Sub(p, origin);
    ReflectMatrix(p, origin, c, s);
    ReflectMatrix(q, origin, c, s);
    var e := Sub(q, origin);
    assert e == Point(cc * d.x + ss * d.y, ss * d.x - cc * d.y);
    DoubleAngleUnit(c, s);
    calc {
      cc * e.x + ss * e.y;
      (cc * cc + ss * ss) * d.x + (cc * ss - ss * cc) * d.y;
      d.x;
    }
    calc {
      ss * e.x - cc * e.y;
      (ss * cc - cc * ss) * d.x + (ss * ss + cc * cc) * d.y;
      d.y;
    }
  }

  /** Every point origin + t*(c, s) of the mirror line is left where it is. */
  lemma ReflectFixesAlong(origin: Point, c: real, s: real, t: real)
    requires Unit(c, s)
    ensures Reflect(Along(origin, c, s, t), origin, c, s) == Along(origin, c, s, t)
  {
    var p := Along(origin, c, s, t);
    ReflectMatrix(p, origin, c, s);
    var d := Sub(p, origin);
    assert d == Point(t * c, t * s);
    calc {
      (c * c - s * s) * d.x + 2.0 * c * s * d.y;
      t * c * (c * c + s * s);
      t * c;
    }
    calc {
      2.0 * c * s * d.x - (c * c - s * s) * d.y;
      t * s * (c * c + s * s);
      t * s;
    }
  }

  /** A point on the mirror line (in the cross-product sense) is of the form origin + t*(c, s). */
  lemma OnMirrorLineIsAlong(p: Point, origin: Point, c: real, s: real)
    requires Unit(c, s) && OnMirrorLine(p, origin, c, s)
    ensures var d := Sub(p, origin); p == Along(origin, c, s, c * d.x + s * d.y)
  {
    var d := Sub(p, origin);
    var t := c * d.x + s * d.y;
    assert c * d.y == s * d.x;
    calc {
      t * c;
      c * c * d.x + s * (c * d.y);
      c * c * d.x + s * (s * d.x);
      (c * c + s * s) * d.x;
      d.x;
    }
    calc {
      t * s;
      c * (s * d.x) + s * s * d.y;
      c * (c * d.y) + s * s * d.y;
      (c * c + s * s) * d.y;
      d.y;
    }
  }

  /** Points of the mirror line, and only those, are fixed points of the reflection. */
  lemma ReflectFixedPoints(p: Point, origin: Point, c: real, s: real)
    requires Unit(c, s)
    ensures Reflect(p, origin, c, s) == p <==> OnMirrorLine(p, origin, c, s)
  {
    var d := Sub(p, origin);
    if OnMirrorLine(p, origin, c, s) {
      OnMirrorLineIsAlong(p, origin, c, s);
      ReflectFixesAlong(origin, c, s, c * d.x + s * d.y);
    } else {
      ReflectMatrix(p, origin, c, s);
      var q := Reflect(p, origin, c, s);
      // q - p == 2 (c d.y - s d.x) (s, -c), which is non-zero off the line
      var k := c * d.y - s * d.x;
      assert k != 0.0;
      assert q.x - p.x == 2.0 * k * s by {
        assert q.x - p.x == (c * c - s * s) * d.x + 2.0 * c * s * d.y - (c * c + s * s) * d.x;
      }
      assert q.y - p.y == -2.0 * k * c by {
        assert q.y - p.y == 2.0 * c * s * d.x - (c * c - s * s) * d.y - (c * c + s * s) * d.y;
      }
      assert (q.x - p.x) * (q.x - p.x) + (q.y - p.y) * (q.y - p.y) == 4.0 * (k * k) * (c * c + s * s);
      assert k * k > 0.0;
    }
  }

  /** The reflection keeps the squared distance to the mirror's origin. */
  lemma ReflectPreservesDistance(p: Point, origin: Point, c: real, s: real)
    requires Unit(c, s)
    ensures SqDist(Reflect(p, origin, c, s), origin) == SqDist(p, origin)
  {
    var cc := c * c - s * s;
    var ss := 2.0 * c * s;
    var d := Sub(p, origin);
    ReflectMatrix(p, origin, c, s);
    DoubleAngleUnit(c, s);
    var e := Point(cc * d.x + ss * d.y, ss * d.x - cc * d.y);
    assert Sub(Reflect(p, origin, c, s), origin) == e;
    calc {
      Dot(e, e);
      (cc * d.x + ss * d.y) * (cc * d.x + ss * d.y) + (ss * d.x - cc * d.y) * (ss * d.x - cc * d.y);
      (cc * cc + ss * ss) * (d.x * d.x) + (cc * cc + ss * ss) * (d.y * d.y);
      Dot(d, d);
    }
  }

  /** q is the mirror image of p: the midpoint of p and q is on the mirror line and q - p is perpendicular to it. */
  predicate IsMirrorImage(q: Point, p: Point, origin: Point, c: real, s: real) {
    OnMirrorLine(Point((p.x + q.x) / 2.0, (p.y + q.y) / 2.0), origin, c, s)
    && Dot(Sub(q, p), Point(c, s)) == 0.0
  }

  /** The two conditions of IsMirrorImage, as a linear system in the displacement q - p. */
  lemma MirrorImageSystem(q: Point, p: Point, origin: Point, c: real, s: real)
    ensures var d := Sub(p, origin);
            var u := q.x - p.x;
            var v := q.y - p.y;
            (IsMirrorImage(q, p, origin, c, s)
             <==> c * v - s * u == -2.0 * (c * d.y - s * d.x) && c * u + s * v == 0.0)
  {
    var d := Sub(p, origin);
    var u := q.x - p.x;
    var v := q.y - p.y;
    var m := Point((p.x + q.x) / 2.0, (p.y + q.y) / 2.0);
    assert Sub(m, origin) == Point(d.x + u / 2.0, d.y + v / 2.0);
    assert Cross(Point(c, s), Sub(m, origin)) == (c * d.y - s * d.x) + (c * v - s * u) / 2.0;
  }

  /** The displacement made by the reflection: Reflect(p) - p == 2k (s, -c), k = Cross((c, s), p - origin). */
  lemma ReflectDisplacement(p: Point, origin: Point, c: real, s: real)
    requires Unit(c, s)
    ensures var d := Sub(p, origin);
            var k := c * d.y - s * d.x;
            Sub(Reflect(p, origin, c, s), p) == Point(2.0 * k * s, -2.0 * k * c)
  {
    var d := Sub(p, origin);
    var k := c * d.y - s * d.x;
    ReflectMatrix(p, origin, c, s);
    var r := Reflect(p, origin, c, s);
    assert r.x - p.x == (c * c - s * s) * d.x + 2.0 * c * s * d.y - (c * c + s * s) * d.x;
    assert r.y - p.y == 2.0 * c * s * d.x - (c * c - s * s) * d.y - (c * c + s * s) * d.y;
  }

  /** Reflect agrees with the geometric definition of a mirror image, in both directions. */
  lemma ReflectIsMirrorImage(q: Point, p: Point, origin: Point, c: real, s: real)
    requires Unit(c, s)
    ensures q == Reflect(p, origin, c, s) <==> IsMirrorImage(q, p, origin, c, s)
  {
    var d := Sub(p, origin);
    var k := c * d.y - s * d.x;
    var u := q.x - p.x;
    var v := q.y - p.y;
    MirrorImageSystem(q, p, origin, c, s);
    ReflectDisplacement(p, origin, c, s);
    if q == Reflect(p, origin, c, s) {
      assert u == 2.0 * k * s && v == -2.0 * k * c;
      assert c * v - s * u == -2.0 * k * (c * c + s * s);
      assert c * u + s * v == 2.0 * k * (c * s - s * c);
    }
    if IsMirrorImage(q, p, origin, c, s) {
      assert c * u + s * v == 0.0;
      assert c * v - s * u == -2.0 * k;
      calc {
        u;
        (c * c + s * s) * u;
        c * (c * u + s * v) - s * (c * v - s * u);
        2.0 * k * s;
      }
      calc {
        v;
        (c * c + s * s) * v;
        s * (c * u + s * v) + c * (c * v - s * u);
        -2.0 * k * c;
      }
    }
  }

  /** Subtracting two images under o + k*dx + l*dy leaves k and l applied to the difference. */
  lemma AffineDifferenceX(o: real, k: real, l: real, px: real, py: real, ax: real, ay: real, ox: real, oy: real)
    ensures (o + k * (px - ox) + l * (py - oy)) - (o + k * (ax - ox) + l * (ay - oy)) == k * (px - ax) + l * (py - ay)
  {
    assert k * (px - ox) - k * (ax - ox) == k * (px - ax);
    assert l * (py - oy) - l * (ay - oy) == l * (py - ay);
  }

  /** Subtracting two images under o + k*dx - l*dy leaves k and -l applied to the difference. */
  lemma AffineDifferenceY(o: real, k: real, l: real, px: real, py: real, ax: real, ay: real, ox: real, oy: real)
    ensures (o + k * (px - ox) - l * (py - oy)) - (o + k * (ax - ox) - l * (ay - oy)) == k * (px - ax) - l * (py - ay)
  {
    assert k * (px - ox) - k * (ax - ox) == k * (px - ax);
    assert l * (py - oy) - l * (ay - oy) == l * (py - ay);
  }

  /** The difference of two reflected points is the matrix [[C, S], [S, -C]] applied to their difference. */
  lemma ReflectDifference(p: Point, a: Point, origin: Point, c: real, s: real)
    ensures var u := Sub(p, a);
            var cc := c * c - s * s;
            var ss := 2.0 * c * s;
            Sub(Reflect(p, origin, c, s), Reflect(a, origin, c, s)) == Point(cc * u.x + ss * u.y, ss * u.x - cc * u.y)
  {
    var cc := c * c - s * s;
    var ss := 2.0 * c * s;
    ReflectMatrix(p, origin, c, s);
    ReflectMatrix(a, origin, c, s);
    AffineDifferenceX(origin.x, cc, ss, p.x, p.y, a.x, a.y, origin.x, origin.y);
    AffineDifferenceY(origin.y, ss, cc, p.x, p.y, a.x, a.y, origin.x, origin.y);
  }

  /** The reflection maps collinear points to collinear points (it is affine). */
  lemma ReflectPreservesOnLine(p: Point, a: Point, b: Point, origin: Point, c: real, s: real)
    requires Unit(c, s) && OnLine(p, a, b)
    ensures OnLine(Reflect(p, origin, c, s), Reflect(a, origin, c, s), Reflect(b, origin, c, s))
  {
    var cc := c * c - s * s;
    var ss := 2.0 * c * s;
    ReflectDifference(b, a, origin, c, s);
    ReflectDifference(p, a, origin, c, s);
    DoubleAngleUnit(c, s);
    CrossOfMatrix(cc, ss, Sub(b, a), Sub(p, a));
  }

  /** The linear part [[C, S], [S, -C]] of a reflection scales cross products by -(C*C + S*S). */
  lemma CrossOfMatrix(cc: real, ss: real, u: Point, v: Point)
    ensures Cross(Point(cc * u.x + ss * u.y, ss * u.x - cc * u.y), Point(cc * v.x + ss * v.y, ss * v.x - cc * v.y))
         == -(cc * cc + ss * ss) * Cross(u, v)
  {
  }

  /** The determinant of getIntersection is the cross product of the two directions. */
  function Det(a: Point, b: Point, c: Point, d: Point): (det: real)
    ensures det == Cross(Sub(b, a), Sub(d, c))
  {
    var a1 := b.y - a.y;
    var b1 := a.x - b.x;
    var a2 := d.y - c.y;
    var b2 := c.x - d.x;
    a1 * b2 - a2 * b1
  }

  /** x*det == xn and y*det == yn solve a1 x + b1 y == c1 when a1 xn + b1 yn == c1 det. */
  lemma SolvesLine(a1: real, b1: real, c1: real, det: real, xn: real, yn: real, x: real, y: real)
    requires det != 0.0 && x * det == xn && y * det == yn
    requires a1 * xn + b1 * yn == c1 * det
    ensures a1 * x + b1 * y == c1
  {
    assert (a1 * x + b1 * y) * det == c1 * det;
  }

  /**
   * getIntersection: the intersection of the infinite lines AB and CD by
   * Cramer's rule, or None when the determinant is zero (parallel lines,
   * coincident lines or a degenerate line A == B or C == D).
   */
  function Intersection(a: Point, b: Point, c: Point, d: Point): (r: Option<Point>)
    ensures r.None? <==> Cross(Sub(b, a), Sub(d, c)) == 0.0
    ensures a == b || c == d ==> r.None?
    ensures r.Some? ==> OnLine(r.value, a, b) && OnLine(r.value, c, d)
  {
    var a1 := b.y - a.y;
    var b1 := a.x - b.x;
    var c1 := a1 * a.x + b1 * a.y;
    var a2 := d.y - c.y;
    var b2 := c.x - d.x;
    var c2 := a2 * c.x + b2 * c.y;
    var det := Det(a, b, c, d);
    if det == 0.0 then None
    else
      var x := (b2 * c1 - b1 * c2) / det;
      var y := (a1 * c2 - a2 * c1) / det;
      SolvesLine(a1, b1, c1, det, b2 * c1 - b1 * c2, a1 * c2 - a2 * c1, x, y);
      SolvesLine(a2, b2, c2, det, b2 * c1 - b1 * c2, a1 * c2 - a2 * c1, x, y);
      assert Cross(Sub(b, a), Sub(Point(x, y), a)) == -(a1 * x + b1 * y - c1);
      assert Cross(Sub(d, c), Sub(Point(x, y), c)) == -(a2 * x + b2 * y - c2);
      Some(Point(x, y))
  }

  /** When the lines do meet, the point returned is their only common point. */
  lemma IntersectionUnique(a: Point, b: Point, c: Point, d: Point, q: Point)
    requires Intersection(a, b, c, d).Some?
    requires OnLine(q, a, b) && OnLine(q, c, d)
    ensures q == Intersection(a, b, c, d).value
  {
    var r := Intersection(a, b, c, d).value;
    var u := Sub(b, a);
    var v := Sub(d, c);
    var det := Cross(u, v);
    assert det != 0.0;
    // w = q - r satisfies Cross(u, w) == 0 and Cross(v, w) == 0
    var w := Sub(q, r);
    assert Cross(u, w) == Cross(u, Sub(q, a)) - Cross(u, Sub(r, a));
    assert Cross(v, w) == Cross(v, Sub(q, c)) - Cross(v, Sub(r, c));
    assert u.x * w.y == u.y * w.x;
    assert v.x * w.y == v.y * w.x;
    assert det * w.x == 0.0 by {
      assert det * w.x == u.x * (v.y * w.x) - v.x * (u.y * w.x);
      assert det * w.x == u.x * (v.x * w.y) - v.x * (u.x * w.y);
    }
    assert det * w.y == 0.0 by {
      assert det * w.y == (u.x * w.y) * v.y - u.y * (v.x * w.y);
      assert det * w.y == (u.y * w.x) * v.y - u.y * (v.y * w.x);
    }
  }

  /**
   * calculateReflectionPoint: reflect the viewer across the mirror, take a
   * second mirror point at distance mirrorWidth along (c, s) (200 when the
   * caller gives no width), and intersect the line object -> virtual viewer
   * with the mirror's line.
   */
  function ReflectionPoint(objectPos: Point, viewerPos: Point, mirrorPos: Point, c: real, s: real,
                           mirrorWidth: Option<real>): (r: Option<Point>)
    ensures WidthOrDefault(mirrorWidth) == 0.0 ==> r.None?
  {
    var virtualViewer := Reflect(viewerPos, mirrorPos, c, s);
    var w := WidthOrDefault(mirrorWidth);
    Intersection(objectPos, virtualViewer, mirrorPos, Along(mirrorPos, c, s, w))
  }

  /** The default parameter value of calculateReflectionPoint's width. */
  function WidthOrDefault(mirrorWidth: Option<real>): real {
    if mirrorWidth.Some? then mirrorWidth.value else DefaultMirrorWidth
  }

  /** Scaling the direction (c, s) by t scales the cross product by t. */
  lemma CrossScaled(u: Point, c: real, s: real, t: real)
    ensures Cross(u, Point(t * c, t * s)) == t * Cross(u, Point(c, s))
    ensures Cross(Point(t * c, t * s), u) == t * Cross(Point(c, s), u)
  {
  }

  /** A product with a non-zero factor is zero exactly when the other factor is. */
  lemma ZeroProduct(t: real, x: real)
    requires t != 0.0
    ensures t * x == 0.0 <==> x == 0.0
  {
    if t * x == 0.0 {
      assert x == (t * x) / t;
    }
  }

  /**
   * The line a -> v meets the line through m along (c, s), taken as the
   * segment m -> m + t*(c, s) for any t != 0, exactly when a -> v is not
   * parallel to (c, s), and then at a point of both lines.
   */
  lemma IntersectionAlong(a: Point, v: Point, m: Point, c: real, s: real, t: real)
    requires t != 0.0
    ensures var r := Intersection(a, v, m, Along(m, c, s, t));
            (r.None? <==> Cross(Sub(v, a), Point(c, s)) == 0.0)
            && (r.Some? ==> OnMirrorLine(r.value, m, c, s) && OnLine(r.value, a, v))
  {
    var d := Along(m, c, s, t);
    assert Sub(d, m) == Point(t * c, t * s);
    CrossScaled(Sub(v, a), c, s, t);
    ZeroProduct(t, Cross(Sub(v, a), Point(c, s)));
    var r := Intersection(a, v, m, d);
    if r.Some? {
      CrossScaled(Sub(r.value, m), c, s, t);
      ZeroProduct(t, Cross(Point(c, s), Sub(r.value, m)));
    }
  }

  /**
   * For a non-zero width: the reflection point exists exactly when the line
   * object -> virtual viewer is not parallel to the mirror, and it then lies
   * on the mirror's line (whatever the width) and on that line.
   */
  lemma ReflectionPointOnMirror(objectPos: Point, viewerPos: Point, mirrorPos: Point,
                                c: real, s: real, mirrorWidth: Option<real>)
    requires WidthOrDefault(mirrorWidth) != 0.0
    ensures var v := Reflect(viewerPos, mirrorPos, c, s);
            var r := ReflectionPoint(objectPos, viewerPos, mirrorPos, c, s, mirrorWidth);
            (r.None? <==> Cross(Sub(v, objectPos), Point(c, s)) == 0.0)
            && (r.Some? ==> OnMirrorLine(r.value, mirrorPos, c, s) && OnLine(r.value, objectPos, v))
  {
    var v := Reflect(viewerPos, mirrorPos, c, s);
    IntersectionAlong(objectPos, v, mirrorPos, c, s, WidthOrDefault(mirrorWidth));
  }

  /**
   * The law of reflection in virtual-image form: the virtual object image,
   * the reflection point and the viewer lie on one line, so the ray from the
   * reflection point to the viewer is the mirror image of the incident ray.
   */
  lemma ReflectedRayMeetsViewer(objectPos: Point, viewerPos: Point, mirrorPos: Point,
                                                  c: real, s: real, mirrorWidth: Option<real>)
    requires Unit(c, s) && WidthOrDefault(mirrorWidth) != 0.0
    requires ReflectionPoint(objectPos, viewerPos, mirrorPos, c, s, mirrorWidth).Some?
    ensures var r := ReflectionPoint(objectPos, viewerPos, mirrorPos, c, s, mirrorWidth).value;
            OnLine(r, Reflect(objectPos, mirrorPos, c, s), viewerPos)
  {
    var r := ReflectionPoint(objectPos, viewerPos, mirrorPos, c, s, mirrorWidth).value;
    var v := Reflect(viewerPos, mirrorPos, c, s);
    ReflectionPointOnMirror(objectPos, viewerPos, mirrorPos, c, s, mirrorWidth);
    ReflectPreservesOnLine(r, objectPos, v, mirrorPos, c, s);
    ReflectFixedPoints(r, mirrorPos, c, s);
    ReflectInvolution(viewerPos, mirrorPos, c, s);
  }

  /**
   * A horizontal mirror through (400, 300) with the object at (300, 100) and
   * the viewer at (300, 500) on the other side: the virtual viewer coincides
   * with the object, the first line degenerates, and no reflection point exists.
   */
  lemma OppositeSidesHaveNoReflectionPoint()
    ensures Reflect(Point(300.0, 500.0), Point(400.0, 300.0), 1.0, 0.0) == Point(300.0, 100.0)
    ensures ReflectionPoint(Point(300.0, 100.0), Point(300.0, 500.0), Point(400.0, 300.0), 1.0, 0.0, Some(200.0)).None?
  {
  }

  /**
   * A horizontal mirror through m, an object and a viewer on one vertical line
   * x == x0 with the object not at the viewer's virtual image: the reflection
   * point is the foot (x0, m.y) of that vertical line on the mirror.
   * (With the object at (300, 100), the viewer at (300, 200) and m == (400, 300)
   * this is (300, 300).)
   */
  lemma HorizontalMirrorVerticalPath(x0: real, objectY: real, viewerY: real, m: Point, w: real)
    requires w != 0.0 && objectY != 2.0 * m.y - viewerY
    ensures ReflectionPoint(Point(x0, objectY), Point(x0, viewerY), m, 1.0, 0.0, Some(w)) == Some(Point(x0, m.y))
  {
    var a, b := Point(x0, objectY), Point(x0, 2.0 * m.y - viewerY);
    var c, d := m, Point(m.x + w * 1.0, m.y + w * 0.0);
    assert Reflect(Point(x0, viewerY), m, 1.0, 0.0) == b;
    var q := Point(x0, m.y);
    assert Cross(Sub(b, a), Sub(d, c)) == -(b.y - a.y) * w;
    assert OnLine(q, a, b) && OnLine(q, c, d);
    IntersectionUnique(a, b, c, d, q);
  }
}
