/** Bodies and colliders (engine/include/Body.h, engine/include/Collider.h, engine/src/Collider.cpp). */
module Bodies {
  import opened Geometry

  datatype BodyType = DYNAMIC | STATIC | NONE

  datatype Body = Body(position: Vec, velocity: Vec, mass: real, kind: BodyType, force: Vec) {
    predicate IsEnabled() { mass >= 0.0 }
    function ApplyForce(f: Vec): Body { this.(force := force.Plus(f)) }
  }

  datatype Shape = CircleShape(circle: Circle) | RectShape(rect: Rect)

  // `body` is the index of the body; `bodyPosition` is the copy of its position taken when the
  // quadtree is set up.
  datatype Collider = Collider(
    shape: Shape, body: nat, bodyPosition: Vec, restitution: real, isTrigger: bool, isAttached: bool)

  predicate ProperShape(s: Shape) {
    match s
    case CircleShape(c) => ProperCircle(c)
    case RectShape(r) => Proper(r)
  }

  /** The bounding box of a shape at a position. */
  function BoundsAt(s: Shape, position: Vec): Rect {
    match s
    case CircleShape(c) => MoveRect(FromCenter(c.center, Vec(c.radius, c.radius)), position)
    case RectShape(r) => MoveRect(r, position)
  }

  function GetBounds(c: Collider): Rect { BoundsAt(c.shape, c.bodyPosition) }

  /** The narrow phase for two shapes at two positions. */
  predicate OverlapAt(a: Shape, p: Vec, b: Shape, q: Vec) {
    match a
    case CircleShape(ca) =>
      (match b
       case CircleShape(cb) => CirclesIntersect(MoveCircle(ca, p), MoveCircle(cb, q))
       case RectShape(rb) => RectCircleIntersect(MoveRect(rb, q), MoveCircle(ca, p)))
    case RectShape(ra) =>
      (match b
       case CircleShape(cb) => RectCircleIntersect(MoveRect(ra, p), MoveCircle(cb, q))
       case RectShape(rb) => RectsIntersect(MoveRect(ra, p), MoveRect(rb, q)))
  }

  lemma BoundsProper(s: Shape, position: Vec)
    requires ProperShape(s)
    ensures Proper(BoundsAt(s, position))
  {
  }

  predicate Inside(s: Shape, position: Vec, p: Vec) {
    match s
    case CircleShape(c) => CircleContains(MoveCircle(c, position), p)
    case RectShape(r) => RectContains(MoveRect(r, position), p)
  }

  /** The bounding box is the smallest one: it holds the shape, and the shape reaches all four sides. */
  lemma BoundsAreTight(s: Shape, position: Vec) returns (left: Vec, right: Vec, low: Vec, high: Vec)
    requires ProperShape(s)
    ensures var b := BoundsAt(s, position);
            && left.x == b.min.x && right.x == b.max.x && low.y == b.min.y && high.y == b.max.y
            && Inside(s, position, left) && Inside(s, position, right) && Inside(s, position, low) && Inside(s, position, high)
            && forall p :: Inside(s, position, p) ==> RectContains(b, p)
  {
    var b := BoundsAt(s, position);
    match s {
      case CircleShape(c) =>
        var center := MoveCircle(c, position).center;
        left, right := Vec(b.min.x, center.y), Vec(b.max.x, center.y);
        low, high := Vec(center.x, b.min.y), Vec(center.x, b.max.y);
        forall p | Inside(s, position, p) ensures RectContains(b, p) {
          SmallComponents(center.Minus(p), c.radius);
        }
      case RectShape(_) => left, right, low, high := b.min, b.max, b.min, b.max;
    }
  }

  /** A box around a circle that meets a shape meets the shape's box: the narrow phase never finds a
      pair that the boxes rule out. */
  lemma OverlapNeedsBounds(a: Shape, p: Vec, b: Shape, q: Vec)
    requires ProperShape(a) && ProperShape(b) && OverlapAt(a, p, b, q)
    ensures RectsIntersect(BoundsAt(a, p), BoundsAt(b, q))
  {
    match a {
      case CircleShape(ca) =>
        match b {
          case CircleShape(cb) => CircleBounds(MoveCircle(ca, p), MoveCircle(cb, q));
          case RectShape(rb) => RectCircleBounds(MoveRect(rb, q), MoveCircle(ca, p));
        }
      case RectShape(ra) =>
        match b {
          case CircleShape(cb) => RectCircleBounds(MoveRect(ra, p), MoveCircle(cb, q));
          case RectShape(rb) =>
        }
    }
  }

  lemma SmallComponents(v: Vec, r: real)
    requires r >= 0.0 && v.SquareLength() <= r * r
    ensures -r <= v.x <= r && -r <= v.y <= r
  {
    SquareOfAbs(v.x);
    SquareOfAbs(v.y);
    SquareOrder(Abs(v.x), r);
    SquareOrder(Abs(v.y), r);
  }

  function BoxOf(c: Circle): Rect { FromCenter(c.center, Vec(c.radius, c.radius)) }

  lemma CircleBounds(a: Circle, b: Circle)
    requires ProperCircle(a) && ProperCircle(b) && CirclesIntersect(a, b)
    ensures RectsIntersect(BoxOf(a), BoxOf(b))
  {
    SmallComponents(a.center.Minus(b.center), a.radius + b.radius);
  }

  lemma RectCircleBounds(r: Rect, c: Circle)
    requires Proper(r) && ProperCircle(c) && RectCircleIntersect(r, c)
    ensures RectsIntersect(BoxOf(c), r) && RectsIntersect(r, BoxOf(c))
  {
    RectCircleIsClosest(r, c);
    SmallComponents(c.center.Minus(Closest(r, c.center)), c.radius);
  }

  /** Overlap is symmetric. */
  lemma OverlapSymmetric(a: Shape, p: Vec, b: Shape, q: Vec)
    ensures OverlapAt(a, p, b, q) == OverlapAt(b, q, a, p)
  {
    if a.CircleShape? && b.CircleShape? {
      var d, e := MoveCircle(a.circle, p).center, MoveCircle(b.circle, q).center;
      assert (d.x - e.x) * (d.x - e.x) == (e.x - d.x) * (e.x - d.x);
      assert (d.y - e.y) * (d.y - e.y) == (e.y - d.y) * (e.y - d.y);
    }
  }
}
