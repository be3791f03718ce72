/** Vectors and shapes over the reals (libs/Math/include/Vec2.h, libs/Math/include/Shape.h). */
module Geometry {

  datatype Vec = Vec(x: real, y: real) {
    function Plus(v: Vec): Vec { Vec(x + v.x, y + v.y) }
    function Minus(v: Vec): Vec { Vec(x - v.x, y - v.y) }
    function Times(k: real): Vec { Vec(x * k, y * k) }
    function Dot(v: Vec): real { x * v.x + y * v.y }
    function SquareLength(): real { x * x + y * y }
  }

  const ZERO := Vec(0.0, 0.0)
  const UP := Vec(0.0, 1.0)

  datatype Circle = Circle(center: Vec, radius: real)
  datatype Rect = Rect(min: Vec, max: Vec)

  function MinReal(a: real, b: real): real { if b < a then b else a }
  function MaxReal(a: real, b: real): real { if a < b then b else a }
  function Abs(a: real): real { if a < 0.0 then -a else a }

  function Clamp(x: real, low: real, high: real): real {
    var least, greatest := MinReal(low, high), MaxReal(low, high);
    if x < least then least else if x > greatest then greatest else x
  }

  // Shapes as the constructors and the terrain build them: a radius is an absolute value, and the
  // lower bound of a rectangle does not exceed the upper one.
  predicate Proper(r: Rect) { r.min.x <= r.max.x && r.min.y <= r.max.y }
  predicate ProperCircle(c: Circle) { c.radius >= 0.0 }

  function MoveRect(r: Rect, v: Vec): Rect { Rect(r.min.Plus(v), r.max.Plus(v)) }
  function MoveCircle(c: Circle, v: Vec): Circle { Circle(c.center.Plus(v), c.radius) }
  function Middle(r: Rect): Vec { r.min.Plus(r.max).Times(0.5) }
  function HalfSize(r: Rect): Vec { r.max.Minus(r.min).Times(0.5) }
  function FromCenter(center: Vec, half: Vec): Rect { Rect(center.Minus(half), center.Plus(half)) }

  predicate CircleContains(c: Circle, p: Vec) { c.center.Minus(p).SquareLength() <= c.radius * c.radius }
  predicate RectContains(r: Rect, p: Vec) {
    !(r.max.x < p.x || r.min.x > p.x) && !(r.max.y < p.y || r.min.y > p.y)
  }

  predicate CirclesIntersect(a: Circle, b: Circle) {
    a.center.Minus(b.center).SquareLength() <= (a.radius + b.radius) * (a.radius + b.radius)
  }

  predicate RectsIntersect(a: Rect, b: Rect) {
    !(a.max.x < b.min.x || a.min.x > b.max.x) && !(a.max.y < b.min.y || a.min.y > b.max.y)
  }

  /** Two widened rectangles and a circle test at each corner. */
  predicate RectCircleIntersect(r: Rect, c: Circle) {
    || RectContains(r, c.center)
    || RectContains(Rect(r.min.Minus(Vec(c.radius, 0.0)), r.max.Plus(Vec(c.radius, 0.0))), c.center)
    || RectContains(Rect(r.min.Minus(Vec(0.0, c.radius)), r.max.Plus(Vec(0.0, c.radius))), c.center)
    || CircleContains(c, r.min) || CircleContains(c, r.max)
    || CircleContains(c, Vec(r.min.x, r.max.y)) || CircleContains(c, Vec(r.max.x, r.min.y))
  }

  /** The point of the rectangle closest to `p`. */
  function Closest(r: Rect, p: Vec): Vec {
    Vec(Clamp(p.x, r.min.x, r.max.x), Clamp(p.y, r.min.y, r.max.y))
  }

  lemma ProductSign(x: real, y: real)
    ensures x >= 0.0 && y >= 0.0 ==> x * y >= 0.0
    ensures x > 0.0 && y > 0.0 ==> x * y > 0.0
  {
  }

  lemma Scale(k: real, x: real, y: real)
    requires k >= 0.0
    ensures x <= y ==> k * x <= k * y
    ensures k > 0.0 && x < y ==> k * x < k * y
  {
    ProductSign(k, y - x);
    assert k * (y - x) == k * y - k * x;
  }

  lemma SquareOrder(a: real, b: real)
    requires a >= 0.0 && b >= 0.0
    ensures a * a <= b * b <==> a <= b
  {
    ProductOrder(a, a, b, b);
    ProductOrder(b, b, a, a);
  }

  lemma ProductOrder(a: real, a': real, b: real, b': real)
    ensures 0.0 <= a <= b && 0.0 <= a' <= b' ==> a * a' <= b * b'
    ensures 0.0 <= a < b && 0.0 <= a' < b' ==> a * a' < b * b'
  {
    if 0.0 <= a <= b && 0.0 <= a' <= b' {
      Scale(a, a', b');
      Scale(b', a, b);
    }
  }

  lemma SquareOfAbs(a: real)
    ensures Abs(a) * Abs(a) == a * a && a * a >= 0.0
  {
  }

  /** The rectangle/circle test is exact: it holds exactly when the circle contains the point of the
      rectangle closest to its centre. */
  lemma RectCircleIsClosest(r: Rect, c: Circle)
    requires Proper(r) && ProperCircle(c)
    ensures RectCircleIntersect(r, c) <==> CircleContains(c, Closest(r, c.center))
  {
    OneAxis(c, Closest(r, c.center));
    CornersAreFar(r, c, r.min);
    CornersAreFar(r, c, r.max);
    CornersAreFar(r, c, Vec(r.min.x, r.max.y));
    CornersAreFar(r, c, Vec(r.max.x, r.min.y));
    InsideOrCorner(r, c);
    hide Closest, Vec.Minus, CircleContains, RectContains;
  }

  /** The tests of `RectCircleIntersect` but those at the corners, and what is left of the closest point. */
  lemma InsideOrCorner(r: Rect, c: Circle)
    requires Proper(r) && ProperCircle(c)
    ensures var p, q := c.center, Closest(r, c.center);
            && (RectContains(r, p) <==> p == q)
            && (RectContains(Rect(r.min.Minus(Vec(c.radius, 0.0)), r.max.Plus(Vec(c.radius, 0.0))), p)
                <==> p.y == q.y && -c.radius <= p.x - q.x <= c.radius)
            && (RectContains(Rect(r.min.Minus(Vec(0.0, c.radius)), r.max.Plus(Vec(0.0, c.radius))), p)
                <==> p.x == q.x && -c.radius <= p.y - q.y <= c.radius)
            && (p.x != q.x && p.y != q.y ==>
                  q == r.min || q == r.max || q == Vec(r.min.x, r.max.y) || q == Vec(r.max.x, r.min.y))
  {
  }

  /** Along one axis the circle reaches as far as its radius. */
  lemma OneAxis(c: Circle, q: Vec)
    requires ProperCircle(c)
    ensures var p := c.center;
            && (p.y == q.y ==> (CircleContains(c, q) <==> -c.radius <= p.x - q.x <= c.radius))
            && (p.x == q.x ==> (CircleContains(c, q) <==> -c.radius <= p.y - q.y <= c.radius))
  {
    var d := c.center.Minus(q);
    SquareOfAbs(d.x);
    SquareOfAbs(d.y);
    SquareOrder(Abs(d.x), c.radius);
    SquareOrder(Abs(d.y), c.radius);
  }

  /** On an axis, neither end of an interval is closer than its closest point. */
  lemma EndIsFar(p: real, low: real, high: real, end: real)
    requires low <= high && (end == low || end == high)
    ensures (p - Clamp(p, low, high)) * (p - Clamp(p, low, high)) <= (p - end) * (p - end)
  {
    var d, e := p - Clamp(p, low, high), p - end;
    SquareOfAbs(d);
    SquareOfAbs(e);
    SquareOrder(Abs(d), Abs(e));
  }

  /** No corner is closer than the closest point. */
  lemma CornersAreFar(r: Rect, c: Circle, corner: Vec)
    requires Proper(r) && (corner.x == r.min.x || corner.x == r.max.x) && (corner.y == r.min.y || corner.y == r.max.y)
    ensures CircleContains(c, corner) ==> CircleContains(c, Closest(r, c.center))
  {
    hide Clamp;
    EndIsFar(c.center.x, r.min.x, r.max.x, corner.x);
    EndIsFar(c.center.y, r.min.y, r.max.y, corner.y);
  }

  /** Boxes that meet pairwise have a point in common. */
  lemma CommonPoint(a: Rect, b: Rect, n: Rect) returns (p: Vec)
    requires Proper(a) && Proper(b) && Proper(n)
    requires RectsIntersect(a, b) && RectsIntersect(a, n) && RectsIntersect(b, n)
    ensures RectContains(a, p) && RectContains(b, p) && RectContains(n, p)
  {
    p := Vec(MaxReal(a.min.x, MaxReal(b.min.x, n.min.x)), MaxReal(a.min.y, MaxReal(b.min.y, n.min.y)));
  }
}
