/** The measured normal and penetration, and what the position pass does with them. */
module ContactPenetration {
  import opened Geometry
  import opened Bodies
  import opened ContactSpec
  import opened ContactLaws
  import opened ContactConservation

  predicate Measurable(c: Contact) { c.shape0.RectShape? ==> c.shape1.RectShape? }

  lemma UnitNormal(length: Vec -> real, c: Contact)
    requires IsLength(length) && Measurable(c)
    ensures Measure(length, c).normal.SquareLength() == 1.0
  {
    if c.shape0.CircleShape? {
      var d := Delta(c);
      var len := length(d);
      if len > 0.0 {
        Normalized(d.x, d.y, len);
      }
    }
  }

  lemma SquareOfProduct(a: real, b: real)
    ensures a * b * (a * b) == a * a * (b * b)
  {
  }

  lemma UnitSum(a: real, b: real, w: real, p: real, q: real)
    requires w > 0.0 && a * w == p && b * w == q && w == p + q
    ensures a + b == 1.0
  {
    assert (a + b - 1.0) * w == a * w + b * w - w;
  }

  lemma ProductOfQuotients(a: real, a': real, len: real, len': real, x: real, x': real)
    requires a * len == x && a' * len' == x'
    ensures a * a' * (len * len') == x * x'
  {
    assert x * x' == a * len * x' == a * len * (a' * len');
  }

  // Stated for pairs of variables that are later the same, which keeps squares out of the equations.
  lemma UnitPair(a: real, a': real, b: real, b': real, x: real, x': real, y: real, y': real, len: real, len': real)
    requires len > 0.0 && len' > 0.0 && len * len' == x * x' + y * y'
    requires a * len == x && a' * len' == x' && b * len == y && b' * len' == y'
    ensures a * a' + b * b' == 1.0
  {
    ProductOfQuotients(a, a', len, len', x, x');
    ProductOfQuotients(b, b', len, len', y, y');
    ProductSign(len, len');
    UnitSum(a * a', b * b', len * len', x * x', y * y');
  }

  lemma Normalized(x: real, y: real, len: real)
    requires len > 0.0 && len * len == x * x + y * y
    ensures x / len * (x / len) + y / len * (y / len) == 1.0
    ensures x / len * len == x && y / len * len == y
  {
    Quotient(x, len);
    Quotient(y, len);
    UnitPair(x / len, x / len, y / len, y / len, x, x, y, y, len, len);
  }

  /** The rectangle/circle order changes no velocity: the swapped contact, resolved and then finished
      again, ends with the velocities of the contact in the other order. */
  lemma OrderKeepsVelocities(length: Vec -> real, c: Contact)
    requires IsLength(length) && Massive(c) && c.shape0.RectShape? && c.shape1.CircleShape?
    requires Simple(c.body0.kind) && Simple(c.body1.kind) && c.restitution0 >= 0.0 && c.restitution1 >= 0.0
    ensures Resolve(length, c).body0.velocity == Resolve(length, Swap(c)).body0.velocity
    ensures Resolve(length, c).body1.velocity == Resolve(length, Swap(c)).body1.velocity
  {
    var m := Measure(length, Swap(c));
    UnitNormal(length, Swap(c));
    MixedNonNegative(m);
    SecondFinishKeepsVelocities(m);
  }

  lemma MixedNonNegative(c: Contact)
    requires Massive(c) && c.restitution0 >= 0.0 && c.restitution1 >= 0.0
    ensures MixRestitution(c).restitution >= 0.0
  {
    ProductSign(c.body0.mass, c.restitution0);
    ProductSign(c.body1.mass, c.restitution1);
    QuotientSign(c.body0.mass * c.restitution0 + c.body1.mass * c.restitution1, c.body0.mass + c.body1.mass);
  }

  lemma QuotientSign(x: real, y: real)
    requires x >= 0.0 && y > 0.0
    ensures x / y >= 0.0
  {
  }

  /** The solver and the narrow phase agree: a pair overlaps exactly when its penetration is not
      negative. */
  lemma PenetrationIsOverlap(length: Vec -> real, c: Contact)
    requires IsLength(length) && Measurable(c) && ProperShape(c.shape0) && ProperShape(c.shape1)
    ensures Measure(length, c).penetration >= 0.0
       <==> OverlapAt(c.shape0, c.body0.position, c.shape1, c.body1.position)
  {
    if c.shape0.CircleShape? {
      CircleDelta(c);
      CirclePenetration(length, c);
      hide Measure, CirclesIntersect, RectCircleIntersect, CircleContains, Closest, MoveRect, MoveCircle, Vec.Minus;
      if c.shape1.RectShape? {
        RectCircleIsClosest(MoveRect(c.shape1.rect, c.body1.position), MoveCircle(c.shape0.circle, c.body0.position));
      }
    } else {
      RectsPenetration(c);
    }
  }

  lemma CirclePenetration(length: Vec -> real, c: Contact)
    requires IsLength(length) && c.shape0.CircleShape? && ProperShape(c.shape0) && ProperShape(c.shape1)
    ensures var a := MoveCircle(c.shape0.circle, c.body0.position);
            match c.shape1
            case CircleShape(circle) =>
              Measure(length, c).penetration >= 0.0 <==> CirclesIntersect(a, MoveCircle(circle, c.body1.position))
            case RectShape(rect) =>
              Measure(length, c).penetration >= 0.0
              <==> CircleContains(a, Closest(MoveRect(rect, c.body1.position), a.center))
  {
    SquareOrder(length(Delta(c)), Radius(c.shape0) + Radius(c.shape1));
    CircleDelta(c);
    hide Delta, Closest, Vec.Minus, Vec.SquareLength;
  }

  /** The vector is the one the narrow phase measures. */
  lemma CircleDelta(c: Contact)
    requires c.shape0.CircleShape?
    ensures var a := MoveCircle(c.shape0.circle, c.body0.position);
            match c.shape1
            case CircleShape(circle) => Delta(c) == a.center.Minus(MoveCircle(circle, c.body1.position).center)
            case RectShape(rect) => Delta(c) == a.center.Minus(Closest(MoveRect(rect, c.body1.position), a.center))
  {
  }

  lemma RectsPenetration(c: Contact)
    requires c.shape0.RectShape? && c.shape1.RectShape? && ProperShape(c.shape0) && ProperShape(c.shape1)
    ensures MeasureRects(c).penetration >= 0.0
       <==> RectsIntersect(MoveRect(c.shape0.rect, c.body0.position), MoveRect(c.shape1.rect, c.body1.position))
  {
  }

  // ----- positions -----

  /** The push apart, as a vector. */
  lemma PositionsAfter(c: Contact)
    requires Massive(c) && c.penetration > 0.0 && c.body0.kind == DYNAMIC && c.body1.kind == DYNAMIC
    ensures var i0, i1 := InverseMass(c.body0), InverseMass(c.body1);
            && i0 + i1 > 0.0
            && var p, c' := c.normal.Times(c.penetration / (i0 + i1)), ResolveInterpenetration(c);
            && c'.body0.position == c.body0.position.Plus(p.Times(i0))
            && c'.body1.position == c.body1.position.Minus(p.Times(i1))
            && p.Times(i0).Plus(p.Times(i1)) == c.normal.Times(c.penetration)
  {
    InverseMasses(c);
    var i0, i1 := InverseMass(c.body0), InverseMass(c.body1);
    var p := c.normal.Times(c.penetration / (i0 + i1));
    TakeShare(c.body0.position, p, i0, i1);
    Quotient(c.penetration, i0 + i1);
    assert c.normal.x * (c.penetration / (i0 + i1)) * (i0 + i1) == c.normal.x * (c.penetration / (i0 + i1) * (i0 + i1));
    assert c.normal.y * (c.penetration / (i0 + i1)) * (i0 + i1) == c.normal.y * (c.penetration / (i0 + i1) * (i0 + i1));
  }

  function MassCenter(c: Contact): Vec {
    c.body0.position.Times(c.body0.mass).Plus(c.body1.position.Times(c.body1.mass))
  }

  /** Two overlapping dynamic bodies are pushed apart without moving their centre of mass (times the
      total mass). */
  lemma MassCenterKept(c: Contact)
    requires Massive(c) && c.body0.kind == DYNAMIC && c.body1.kind == DYNAMIC
    ensures MassCenter(ResolveInterpenetration(c)) == MassCenter(c)
  {
    hide InverseMass;
    if c.penetration > 0.0 {
      InverseMasses(c);
      PositionsAfter(c);
      var i0, i1 := InverseMass(c.body0), InverseMass(c.body1);
      var p, x0, x1 := c.normal.Times(c.penetration / (i0 + i1)), c.body0.position, c.body1.position;
      Push(x0.x, p.x, i0, c.body0.mass);
      Push(x0.y, p.y, i0, c.body0.mass);
      Push(x1.x, p.x, i1, c.body1.mass);
      Push(x1.y, p.y, i1, c.body1.mass);
    }
  }

  lemma MeasuredNormal(length: Vec -> real, c: Contact)
    requires c.shape0.CircleShape? && length(Delta(c)) > 0.0
    ensures Delta(Measure(length, c)) == Delta(c)
    ensures Measure(length, c).normal == Vec(Delta(c).x / length(Delta(c)), Delta(c).y / length(Delta(c)))
  {
    hide Clamp, Vec.Plus, Vec.Minus;
  }

  lemma NormalTimesLength(length: Vec -> real, c: Contact)
    requires IsLength(length) && c.shape0.CircleShape? && length(Delta(c)) > 0.0
    ensures Measure(length, c).normal.Times(length(Delta(c))) == Delta(c) == Delta(Measure(length, c))
  {
    hide Delta, Measure;
    MeasuredNormal(length, c);
    Normalized(Delta(c).x, Delta(c).y, length(Delta(c)));
  }

  /** The new difference of the centres lies on the normal, at the distance of the two radii. */
  lemma NewDelta(length: Vec -> real, c: Contact, m: Contact)
    requires IsLength(length) && Massive(c) && c.body0.kind == DYNAMIC && c.body1.kind == DYNAMIC
    requires c.shape0.CircleShape? && c.shape1.CircleShape?
    requires m == Measure(length, c) && length(Delta(c)) > 0.0 && m.penetration > 0.0
    ensures Delta(ResolveInterpenetration(m)) == m.normal.Times(Radius(c.shape0) + Radius(c.shape1))
  {
    NormalTimesLength(length, c);
    CirclesMoveApart(m);
    Along(m.normal, length(Delta(c)), m.penetration);
    assert length(Delta(c)) + m.penetration == Radius(c.shape0) + Radius(c.shape1);
  }

  lemma Along(n: Vec, a: real, b: real)
    ensures n.Times(a).Plus(n.Times(b)) == n.Times(a + b)
  {
    TakeShare(ZERO, n, a, b);
  }

  lemma CirclesMoveApart(c: Contact)
    requires Massive(c) && c.penetration > 0.0 && c.body0.kind == DYNAMIC && c.body1.kind == DYNAMIC
    requires c.shape0.CircleShape? && c.shape1.CircleShape?
    ensures Delta(ResolveInterpenetration(c)) == Delta(c).Plus(c.normal.Times(c.penetration))
  {
    PositionsAfter(c);
    var i0, i1 := InverseMass(c.body0), InverseMass(c.body1);
    var p := c.normal.Times(c.penetration / (i0 + i1));
    MoveApart(c.body0.position, c.shape0.circle.center, c.body1.position, c.shape1.circle.center, p.Times(i0), p.Times(i1));
  }

  lemma MoveApart(x: Vec, a: Vec, y: Vec, b: Vec, p: Vec, q: Vec)
    ensures x.Plus(p).Plus(a).Minus(y.Minus(q)).Minus(b) == x.Plus(a).Minus(y).Minus(b).Plus(p.Plus(q))
  {
  }

  /** After one pass two overlapping dynamic circles with distinct centres are exactly tangent. */
  lemma CirclesBecomeTangent(length: Vec -> real, c: Contact)
    requires IsLength(length) && Massive(c) && c.body0.kind == DYNAMIC && c.body1.kind == DYNAMIC
    requires c.shape0.CircleShape? && c.shape1.CircleShape?
    requires ProperShape(c.shape0) && ProperShape(c.shape1)
    requires length(Delta(c)) > 0.0 && Measure(length, c).penetration > 0.0
    ensures length(Delta(ResolveInterpenetration(Measure(length, c)))) == Radius(c.shape0) + Radius(c.shape1)
  {
    NewDelta(length, c, Measure(length, c));
    UnitNormal(length, c);
    LengthOfMultiple(length, Measure(length, c).normal, Radius(c.shape0) + Radius(c.shape1));
  }

  lemma LengthOfMultiple(length: Vec -> real, n: Vec, r: real)
    requires IsLength(length) && n.SquareLength() == 1.0 && r >= 0.0
    ensures length(n.Times(r)) == r
  {
    SquareOfProduct(n.x, r);
    SquareOfProduct(n.y, r);
    assert n.x * n.x * (r * r) + n.y * n.y * (r * r) == (n.x * n.x + n.y * n.y) * (r * r);
    SquareOrder(length(n.Times(r)), r);
    SquareOrder(r, length(n.Times(r)));
  }
}
