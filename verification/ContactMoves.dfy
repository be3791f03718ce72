/** How far the position pass moves bodies of either kind, what is left of the penetration, and how a body
    bounces off a static one. */
module ContactMoves {
  import opened Geometry
  import opened Bodies
  import opened ContactSpec
  import opened ContactLaws
  import opened ContactPenetration

  /** The part of the penetration by which the first body moves: a static one stays, a dynamic one takes the
      part of the other body's mass. */
  function Part(mine: Body, other: Body): real
    requires mine.mass > 0.0 && other.mass > 0.0
  {
    if mine.kind == DYNAMIC then other.mass / (mine.mass + other.mass) else 0.0
  }

  lemma PartOfInverses(a: real, b: real)
    requires a > 0.0 && b > 0.0
    ensures 1.0 / a + 1.0 / b > 0.0
    ensures 1.0 / a / (1.0 / a + 1.0 / b) == b / (a + b)
  {
    Inverse(a);
    Inverse(b);
    var i, j := 1.0 / a, 1.0 / b;
    assert i * (a + b) == i * a + i * b;
    assert (i + j) * b == i * b + j * b;
    SameQuotient(i, i + j, b, a + b);
  }

  lemma SameQuotient(x: real, y: real, u: real, v: real)
    requires y != 0.0 && v != 0.0 && x * v == u * y
    ensures x / y == u / v
  {
    Quotient(x, y);
    Quotient(u, v);
    CrossMultiply(x / y, u / v, x, y, u, v);
  }

  lemma CrossMultiply(p: real, q: real, x: real, y: real, u: real, v: real)
    requires y != 0.0 && v != 0.0 && x * v == u * y && p * y == x && q * v == u
    ensures p == q
  {
    Regroup(p, y, v);
    Regroup(q, v, y);
    Cancel(p, q, y * v);
  }

  lemma Regroup(p: real, y: real, v: real)
    ensures p * (y * v) == p * y * v && y * v == v * y
  {
  }

  lemma Cancel(p: real, q: real, w: real)
    requires p * w == q * w && w != 0.0
    ensures p == q
  {
    ZeroFactor(p - q, w);
  }

  /** The contact with its bodies moved apart along the normal. */
  function MovedApart(c: Contact, a: real, b: real): Contact {
    c.(body0 := c.body0.(position := c.body0.position.Plus(c.normal.Times(a))),
       body1 := c.body1.(position := c.body1.position.Minus(c.normal.Times(b))))
  }

  lemma TimesTwice(n: Vec, p: real, total: real, i: real)
    requires total != 0.0
    ensures n.Times(p / total).Times(i) == n.Times(p * (i / total))
  {
    Quotient(p, total);
    Quotient(i, total);
    var a, b := p / total, i / total;
    assert a * i == a * (b * total) == (a * total) * b == p * b;
    assert n.x * a * i == n.x * (a * i) && n.y * a * i == n.y * (a * i);
  }

  /** Every mix of dynamic and static bodies: each dynamic body moves its part of the penetration along the
      normal, the two in opposite directions, and a static one stays. */
  lemma EachMovesItsPart(c: Contact)
    requires Massive(c)
    ensures ResolveInterpenetration(c) ==
            if c.penetration <= 0.0 then c
            else MovedApart(c, c.penetration * Part(c.body0, c.body1), c.penetration * Part(c.body1, c.body0))
  {
    hide Vec.Times, Vec.Plus, Vec.Minus, Part, InverseMass;
    var total := InverseMass(c.body0) + InverseMass(c.body1);
    var a, b := c.penetration * Part(c.body0, c.body1), c.penetration * Part(c.body1, c.body0);
    OneMoves(c.body0, c.body1, c.normal, c.penetration, total, a);
    OneMoves(c.body1, c.body0, c.normal, c.penetration, total, b);
    TakeShare(c.body0.position, ZERO, 0.0, 0.0);
    TakeShare(c.body1.position, ZERO, 0.0, 0.0);
  }

  lemma OneMoves(mine: Body, other: Body, n: Vec, p: real, total: real, a: real)
    requires mine.mass > 0.0 && other.mass > 0.0 && total == InverseMass(mine) + InverseMass(other)
    requires a == p * Part(mine, other)
    ensures total > 0.0
    ensures n.Times(a) == if mine.kind == DYNAMIC then n.Times(p / total).Times(InverseMass(mine)) else ZERO
  {
    PartOfInverses(mine.mass, other.mass);
    if mine.kind == DYNAMIC {
      TimesTwice(n, p, total, InverseMass(mine));
      assert Part(mine, other) == InverseMass(mine) / total;
    }
  }

  // ----- what is left of the penetration -----

  predicate SignOf(d: real, n: real) { (d > 0.0 ==> n >= 0.0) && (d < 0.0 ==> n <= 0.0) && (d == 0.0 ==> n == 0.0) }

  /** On an axis, a point beside an interval that moves away from it, or the interval from it, gets that much
      farther away. */
  lemma AwayFromInterval(x: real, low: real, high: real, t: real, u: real)
    requires low <= high && SignOf(x - Clamp(x, low, high), t) && SignOf(x - Clamp(x, low, high), u)
    ensures x + t - Clamp(x + t, low - u, high - u) == x - Clamp(x, low, high) + (t + u)
  {
  }

  lemma SignOfQuotient(d: real, len: real, k: real)
    requires len > 0.0 && k >= 0.0
    ensures SignOf(d, d / len * k)
  {
    Quotient(d, len);
    var q := d / len;
    if d > 0.0 {
      assert q > 0.0;
      ProductSign(q, k);
    } else if d < 0.0 {
      assert q < 0.0;
      ProductSign(-q, k);
      assert (-q) * k == -(q * k);
    }
  }

  /** Moving apart makes the vector between the shapes longer by exactly the distance moved. */
  lemma DeltaApart(length: Vec -> real, c: Contact, a: real, b: real)
    requires c.shape0.CircleShape? && ProperShape(c.shape1) && length(Delta(c)) > 0.0 && a >= 0.0 && b >= 0.0
    ensures var m := Measure(length, c);
            Delta(MovedApart(m, a, b)) == Delta(c).Plus(m.normal.Times(a + b))
  {
    hide Clamp;
    var d, len := Delta(c), length(Delta(c));
    MeasuredNormal(length, c);
    var n := Measure(length, c).normal;
    SignOfQuotient(d.x, len, a);
    SignOfQuotient(d.x, len, b);
    SignOfQuotient(d.y, len, a);
    SignOfQuotient(d.y, len, b);
    Along(n, a, b);
    DeltaMoved(c, n.Times(a), n.Times(b));
    MeasureKeepsShapes(length, c);
  }

  lemma MeasureKeepsShapes(length: Vec -> real, c: Contact)
    requires Measurable(c)
    ensures var m := Measure(length, c); m == c.(normal := m.normal, penetration := m.penetration)
  {
    hide Delta;
  }

  /** The two bodies move by `t` and against `u`. */
  lemma DeltaMoved(c: Contact, t: Vec, u: Vec)
    requires c.shape0.CircleShape? && ProperShape(c.shape1)
    requires SignOf(Delta(c).x, t.x) && SignOf(Delta(c).y, t.y) && SignOf(Delta(c).x, u.x) && SignOf(Delta(c).y, u.y)
    ensures var p, q := c.body0.position.Plus(t), c.body1.position.Minus(u);
            Delta(c.(body0 := c.body0.(position := p), body1 := c.body1.(position := q))) == Delta(c).Plus(t.Plus(u))
  {
    hide Clamp, SignOf;
    var p, q, center := c.body0.position, c.body1.position, c.shape0.circle.center;
    if c.shape1.RectShape? {
      var r := c.shape1.rect;
      AwayOnAxis(p.x, center.x, q.x, r.min.x, r.max.x, t.x, u.x);
      AwayOnAxis(p.y, center.y, q.y, r.min.y, r.max.y, t.y, u.y);
    }
  }

  lemma AwayOnAxis(p: real, center: real, q: real, low: real, high: real, t: real, u: real)
    requires low <= high
    requires var d := p + center - Clamp(p + center, low + q, high + q); SignOf(d, t) && SignOf(d, u)
    ensures p + t + center - Clamp(p + t + center, low + (q - u), high + (q - u))
         == p + center - Clamp(p + center, low + q, high + q) + (t + u)
  {
    AwayFromInterval(p + center, low + q, high + q, t, u);
  }

  /** What is left of the penetration of a circle with a circle or a rectangle. */
  lemma CircleLeft(length: Vec -> real, c: Contact, a: real, b: real)
    requires IsLength(length) && c.shape0.CircleShape? && ProperShape(c.shape1) && length(Delta(c)) > 0.0 && a >= 0.0 && b >= 0.0
    ensures var m := Measure(length, c);
            var m' := Measure(length, MovedApart(m, a, b));
            m'.penetration == m.penetration - (a + b) && m'.normal == m.normal
  {
    hide Delta, Measure, MovedApart;
    var m, len := Measure(length, c), length(Delta(c));
    DeltaApart(length, c, a, b);
    NormalTimesLength(length, c);
    Along(m.normal, len, a + b);
    UnitNormal(length, c);
    LengthOfMultiple(length, m.normal, len);
    LengthOfMultiple(length, m.normal, len + (a + b));
    MeasureKeepsShapes(length, c);
    MovedShapes(m, a, b);
    MeasuredAlong(length, c, m.normal, len);
    MeasuredAlong(length, MovedApart(m, a, b), m.normal, len + (a + b));
  }

  /** The measured normal and penetration of a circle whose distance vector is a multiple of a unit vector. */
  lemma MeasuredAlong(length: Vec -> real, c: Contact, n: Vec, len: real)
    requires c.shape0.CircleShape? && Delta(c) == n.Times(len) && length(Delta(c)) == len > 0.0
    ensures Measure(length, c).normal == n && Measure(length, c).penetration == Radius(c.shape0) + Radius(c.shape1) - len
  {
    hide Delta;
    BackToNormal(n.x, len);
    BackToNormal(n.y, len);
  }

  lemma BackToNormal(x: real, len: real)
    requires len > 0.0
    ensures x * len / len == x
  {
  }

  /** Two circles with the same centre part vertically, the first one towards larger y. */
  lemma CoincidentPart(length: Vec -> real, c: Contact, a: real, b: real)
    requires IsLength(length) && c.shape0.CircleShape? && c.shape1.CircleShape? && Delta(c) == ZERO
    ensures var m := Measure(length, c);
            && m.penetration == Radius(c.shape0) + Radius(c.shape1)
            && Delta(MovedApart(m, a, b)) == Vec(0.0, a + b)
  {
    hide Delta, IsLength, MovedApart;
    ZeroLength(length);
    var m := MeasureCircle(length, c);
    CirclesApart(m, a, b);
    SameDelta(length, c);
  }

  lemma SameDelta(length: Vec -> real, c: Contact)
    requires c.shape0.CircleShape?
    ensures Delta(MeasureCircle(length, c)) == Delta(c)
  {
    hide Clamp, Vec.Plus, Vec.Minus;
  }

  lemma CirclesApart(m: Contact, a: real, b: real)
    requires m.shape0.CircleShape? && m.shape1.CircleShape? && m.normal == UP
    ensures Delta(MovedApart(m, a, b)) == Delta(m).Plus(Vec(0.0, a + b))
  {
  }

  lemma ZeroLength(length: Vec -> real)
    requires IsLength(length)
    ensures length(ZERO) == 0.0
  {
    SquareOrder(length(ZERO), 0.0);
  }

  lemma RectsLeft(length: Vec -> real, c: Contact, a: real, b: real)
    requires c.shape0.RectShape? && c.shape1.RectShape? && a >= 0.0 && b >= 0.0
    ensures var m := Measure(length, c);
            var m' := Measure(length, MovedApart(m, a, b));
            m'.penetration == m.penetration - (a + b) && m'.normal == m.normal
  {
    hide Middle, HalfSize;
  }

  lemma LeftBy(length: Vec -> real, c: Contact, a: real, b: real)
    requires IsLength(length) && Massive(c) && Measurable(c) && ProperShape(c.shape1)
    requires c.shape0.CircleShape? ==> length(Delta(c)) > 0.0
    requires var m := Measure(length, c);
             m.penetration > 0.0 && a == m.penetration * Part(c.body0, c.body1) && b == m.penetration * Part(c.body1, c.body0)
    ensures Measurable(MovedApart(Measure(length, c), a, b))
    ensures Measure(length, MovedApart(Measure(length, c), a, b)).penetration == Measure(length, c).penetration - (a + b)
    ensures Measure(length, MovedApart(Measure(length, c), a, b)).normal == Measure(length, c).normal
  {
    hide Delta, Part, Measure;
    var m, x, y := Measure(length, c), Part(c.body0, c.body1), Part(c.body1, c.body0);
    MeasureKeepsShapes(length, c);
    PartSign(c.body0, c.body1);
    PartSign(c.body1, c.body0);
    ProductSign(m.penetration, x);
    ProductSign(m.penetration, y);
    if c.shape0.CircleShape? {
      CircleLeft(length, c, a, b);
    } else {
      RectsLeft(length, c, a, b);
    }
  }

  lemma MovesBy(c: Contact, a: real, b: real)
    requires Massive(c) && c.penetration > 0.0
    requires a == c.penetration * Part(c.body0, c.body1) && b == c.penetration * Part(c.body1, c.body0)
    ensures ResolveInterpenetration(c) == MovedApart(c, a, b)
  {
    EachMovesItsPart(c);
  }

  /** After the position pass the two penetrate less by what the dynamic ones have moved: two dynamic bodies
      just touch, a dynamic body and a static one of equal mass still penetrate by half, two static ones as before. */
  lemma PenetrationLeft(length: Vec -> real, c: Contact)
    requires IsLength(length) && Massive(c) && Measurable(c) && ProperShape(c.shape1)
    requires c.shape0.CircleShape? ==> length(Delta(c)) > 0.0
    requires Measure(length, c).penetration > 0.0
    ensures var m := Measure(length, c);
            var left := Measure(length, ResolveInterpenetration(m)).penetration;
            && left == m.penetration - (m.penetration * Part(c.body0, c.body1) + m.penetration * Part(c.body1, c.body0))
            && (c.body0.kind == DYNAMIC && c.body1.kind == DYNAMIC ==> left == 0.0)
            && (c.body0.kind == DYNAMIC && c.body1.kind == STATIC && c.body0.mass == c.body1.mass ==> left == m.penetration / 2.0)
            && (c.body0.kind == STATIC && c.body1.kind == STATIC ==> left == m.penetration)
  {
    hide Delta, Measure, ResolveInterpenetration;
    var m, x, y := Measure(length, c), Part(c.body0, c.body1), Part(c.body1, c.body0);
    MeasureKeepsShapes(length, c);
    assert x == Part(m.body0, m.body1) && y == Part(m.body1, m.body0);
    PartSign(c.body0, c.body1);
    MovesBy(m, m.penetration * x, m.penetration * y);
    LeftBy(length, c, m.penetration * x, m.penetration * y);
    assert m.penetration * x + m.penetration * y == m.penetration * (x + y);
  }

  lemma PartSign(mine: Body, other: Body)
    requires mine.mass > 0.0 && other.mass > 0.0
    ensures Part(mine, other) >= 0.0
    ensures mine.kind == DYNAMIC && other.kind == DYNAMIC ==> Part(mine, other) + Part(other, mine) == 1.0
    ensures mine.kind == DYNAMIC && mine.mass == other.mass ==> Part(mine, other) == 0.5
  {
    QuotientSign(other.mass, mine.mass + other.mass);
    PartsAddUp(mine.mass, other.mass, mine.mass + other.mass);
    if mine.mass == other.mass {
      SameQuotient(other.mass, mine.mass + other.mass, 1.0, 2.0);
    }
  }

  lemma PartsAddUp(a: real, b: real, total: real)
    requires total > 0.0 && a + b == total
    ensures a / total + b / total == 1.0
  {
    var x, y := a / total, b / total;
    Quotient(a, total);
    Quotient(b, total);
    assert x * total == a && y * total == b;
    UnitSum(x, y, total, a, b);
  }

  // ----- the whole of `Resolve` -----

  /** The restitution of a contact is the mean of its colliders', weighted by the masses of their bodies,
      whichever comes first. */
  lemma RestitutionIsMean(c: Contact)
    requires Massive(c)
    ensures var e := MixRestitution(c).restitution;
            && e * (c.body0.mass + c.body1.mass) == c.body0.mass * c.restitution0 + c.body1.mass * c.restitution1
            && MixRestitution(Swap(c)).restitution == e
  {
    Quotient(c.body0.mass * c.restitution0 + c.body1.mass * c.restitution1, c.body0.mass + c.body1.mass);
  }

  /** The rest of `Resolve` after the measuring: each body moves its part, and the separating velocity is turned
      by the mixed restitution. */
  lemma FinishIs(c: Contact, a: real, b: real)
    requires Massive(c) && c.normal.SquareLength() == 1.0 && Simple(c.body0.kind) && Simple(c.body1.kind)
    requires c.penetration > 0.0 && a == c.penetration * Part(c.body0, c.body1) && b == c.penetration * Part(c.body1, c.body0)
    ensures var c' := Finish(c);
            && c'.body0.position == MovedApart(c, a, b).body0.position && c'.body1.position == MovedApart(c, a, b).body1.position
            && c' == c.(body0 := c'.body0, body1 := c'.body1, restitution := MixRestitution(c).restitution)
            && FixedParts(c.body0, c'.body0) && FixedParts(c.body1, c'.body1)
            && SeparatingVelocity(c') == if SeparatingVelocity(c) > 0.0 then SeparatingVelocity(c)
                                         else -MixRestitution(c).restitution * SeparatingVelocity(c)
  {
    hide ResolveVelocity, ResolveInterpenetration, Vec.Times, Vec.Plus, Vec.SquareLength, Part;
    var mixed := MixRestitution(c);
    var turned := ResolveVelocity(mixed);
    VelocityLaw(mixed);
    KeptByPasses(mixed);
    KeptByPasses(turned);
    SameParts(c, turned);
    MovesBy(turned, a, b);
  }

  predicate FixedParts(b: Body, b': Body) { b'.mass == b.mass && b'.kind == b.kind && b'.force == b.force }

  lemma SameParts(c: Contact, d: Contact)
    requires Massive(c) && d.body0.mass == c.body0.mass && d.body1.mass == c.body1.mass
    requires d.body0.kind == c.body0.kind && d.body1.kind == c.body1.kind
    ensures Part(d.body0, d.body1) == Part(c.body0, c.body1) && Part(d.body1, d.body0) == Part(c.body1, c.body0)
  {
  }

  /** The separating velocity that a pair of bodies with this one gets. */
  function Turned(s: real, e: real): real { if s > 0.0 then s else -e * s }

  /** A circle against anything, or two rectangles: one pass, after which `a` and `b` have been taken off the
      penetration. */
  lemma ResolveOnce(length: Vec -> real, c: Contact, a: real, b: real)
    requires IsLength(length) && Massive(c) && Measurable(c) && ProperShape(c.shape1) && Simple(c.body0.kind) && Simple(c.body1.kind)
    requires c.shape0.CircleShape? ==> length(Delta(c)) > 0.0
    requires var m := Measure(length, c);
             m.penetration > 0.0 && a == m.penetration * Part(c.body0, c.body1) && b == m.penetration * Part(c.body1, c.body0)
    ensures var m, c' := Measure(length, c), Resolve(length, c);
            && c'.body0.position == MovedApart(m, a, b).body0.position && c'.body1.position == MovedApart(m, a, b).body1.position
            && FixedParts(c.body0, c'.body0) && FixedParts(c.body1, c'.body1)
            && c' == m.(body0 := c'.body0, body1 := c'.body1, restitution := c'.restitution)
            && SeparatingVelocity(c') == Turned(SeparatingVelocity(m), MixRestitution(c).restitution)
            && Measure(length, c').penetration == m.penetration - (a + b) && Measure(length, c').normal == m.normal
  {
    hide Measure, Finish, MixRestitution, Part, MovedApart, SeparatingVelocity, FixedParts;
    var m := Measure(length, c);
    MeasureKeepsShapes(length, c);
    UnitNormal(length, c);
    SameParts(c, m);
    MixIgnoresMeasure(c, m);
    FinishIs(m, a, b);
    LeftBy(length, c, a, b);
    MovedShapes(m, a, b);
    MeasuresPositions(length, MovedApart(m, a, b), Finish(m));
  }

  lemma MovedShapes(c: Contact, a: real, b: real)
    ensures MovedApart(c, a, b).shape0 == c.shape0 && MovedApart(c, a, b).shape1 == c.shape1
  {
  }

  /** What is measured depends on shapes and positions only. */
  lemma MeasuresPositions(length: Vec -> real, c: Contact, d: Contact)
    requires Measurable(c) && d.shape0 == c.shape0 && d.shape1 == c.shape1
    requires d.body0.position == c.body0.position && d.body1.position == c.body1.position
    ensures Measure(length, d).penetration == Measure(length, c).penetration && Measure(length, d).normal == Measure(length, c).normal
  {
    assert Delta(d) == Delta(c);
    hide Delta;
  }

  /** A rectangle against a circle: the second trip through the end of `Resolve` leaves the velocities alone, but
      moves the bodies once more, so twice as much is taken off the penetration. */
  lemma ResolveTwice(length: Vec -> real, c: Contact, a: real, b: real)
    requires IsLength(length) && Massive(c) && c.shape0.RectShape? && c.shape1.CircleShape? && ProperShape(c.shape0)
    requires Simple(c.body0.kind) && Simple(c.body1.kind) && c.restitution0 >= 0.0 && c.restitution1 >= 0.0
    requires length(Delta(Swap(c))) > 0.0
    requires var m := Measure(length, Swap(c));
             m.penetration > 0.0 && a == m.penetration * Part(c.body1, c.body0) && b == m.penetration * Part(c.body0, c.body1)
    ensures var m, c' := Measure(length, Swap(c)), Resolve(length, c);
            && c'.body0.position == MovedApart(m, a + a, b + b).body0.position
            && c'.body1.position == MovedApart(m, a + a, b + b).body1.position
            && FixedParts(c.body1, c'.body0) && FixedParts(c.body0, c'.body1)
            && c' == m.(body0 := c'.body0, body1 := c'.body1, restitution := c'.restitution)
            && SeparatingVelocity(c') == Turned(SeparatingVelocity(m), MixRestitution(Swap(c)).restitution)
            && Measure(length, c').penetration == m.penetration - 2.0 * (a + b) && Measure(length, c').normal == m.normal
  {
    hide Measure, Finish, MixRestitution, Part, MovedApart, SeparatingVelocity, FixedParts, Delta;
    var d := Swap(c);
    var m := Measure(length, d);
    MeasureKeepsShapes(length, d);
    UnitNormal(length, d);
    SameParts(d, m);
    MixIgnoresMeasure(d, m);
    MixedNonNegative(m);
    FinishIs(m, a, b);
    var once := Finish(m);
    FixedAre(m.body0, once.body0);
    FixedAre(m.body1, once.body1);
    SameParts(m, once);
    FinishIs(once, a, b);
    SecondFinishKeepsVelocities(m);
    MovedTwice(m, once, a, b);
    SameSeparation(once, Finish(once));
    FixedTwice(m.body0, once.body0, Finish(once).body0);
    FixedTwice(m.body1, once.body1, Finish(once).body1);
    LeftBySum(length, d, a, b);
    MovedShapes(m, a + a, b + b);
    MeasuresPositions(length, MovedApart(m, a + a, b + b), Finish(once));
  }

  lemma FixedAre(b: Body, b': Body)
    requires FixedParts(b, b')
    ensures b'.mass == b.mass && b'.kind == b.kind
  {
  }

  lemma FixedTwice(b: Body, b': Body, b'': Body)
    requires FixedParts(b, b') && FixedParts(b', b'')
    ensures FixedParts(b, b'')
  {
  }

  lemma SameSeparation(c: Contact, d: Contact)
    requires d.body0.velocity == c.body0.velocity && d.body1.velocity == c.body1.velocity && d.normal == c.normal
    ensures SeparatingVelocity(d) == SeparatingVelocity(c)
  {
  }

  lemma MovedTwice(m: Contact, once: Contact, a: real, b: real)
    requires once.normal == m.normal
    requires once.body0.position == MovedApart(m, a, b).body0.position && once.body1.position == MovedApart(m, a, b).body1.position
    ensures MovedApart(once, a, b).body0.position == MovedApart(m, a + a, b + b).body0.position
    ensures MovedApart(once, a, b).body1.position == MovedApart(m, a + a, b + b).body1.position
  {
    hide Vec.Times, Vec.Plus, Vec.Minus;
    TakeShare(m.body0.position, m.normal, a, a);
    TakeShare(m.body1.position, m.normal, b, b);
  }

  lemma LeftBySum(length: Vec -> real, c: Contact, a: real, b: real)
    requires IsLength(length) && Massive(c) && c.shape0.CircleShape? && ProperShape(c.shape1) && length(Delta(c)) > 0.0
    requires var m := Measure(length, c);
             m.penetration > 0.0 && a == m.penetration * Part(c.body0, c.body1) && b == m.penetration * Part(c.body1, c.body0)
    ensures var m' := Measure(length, MovedApart(Measure(length, c), a + a, b + b));
            m'.penetration == Measure(length, c).penetration - 2.0 * (a + b) && m'.normal == Measure(length, c).normal
  {
    hide Delta, Part, Measure, MovedApart;
    var m, x, y := Measure(length, c), Part(c.body0, c.body1), Part(c.body1, c.body0);
    PartSign(c.body0, c.body1);
    PartSign(c.body1, c.body0);
    ProductSign(m.penetration, x);
    ProductSign(m.penetration, y);
    CircleLeft(length, c, a + a, b + b);
  }

  lemma MixIgnoresMeasure(c: Contact, m: Contact)
    requires Massive(c) && m == c.(normal := m.normal, penetration := m.penetration)
    ensures MixRestitution(m).restitution == MixRestitution(c).restitution
  {
  }

  // ----- bouncing off a static body -----

  /** A dynamic body that meets a static one gets the whole change of velocity, along the normal; the static one
      keeps its velocity. */
  lemma BouncesOff(c: Contact, turn: real)
    requires Massive(c) && SeparatingVelocity(c) <= 0.0 && turn == -(1.0 + c.restitution) * SeparatingVelocity(c)
    ensures c.body0.kind == DYNAMIC && c.body1.kind == STATIC ==>
              ResolveVelocity(c) == c.(body0 := c.body0.(velocity := c.body0.velocity.Plus(c.normal.Times(turn))))
    ensures c.body0.kind == STATIC && c.body1.kind == DYNAMIC ==>
              ResolveVelocity(c) == c.(body1 := c.body1.(velocity := c.body1.velocity.Minus(c.normal.Times(turn))))
  {
    hide Impulse, InverseMass, SeparatingVelocity, ResolveVelocity, Vec.Plus, Vec.Minus, Vec.Times;
    VelocityAfter(c);
    KeptByPasses(c);
    ImpulseChange(c);
    var s, j, i0, i1 := SeparatingVelocity(c), Impulse(c), InverseMass(c.body0), InverseMass(c.body1);
    assert turn == -c.restitution * s - s;
    ScaledTwice(c.normal, j, Share(i0, i1, DYNAMIC, STATIC), turn);
    ScaledTwice(c.normal, j, Share(i1, i0, DYNAMIC, STATIC), turn);
    TakeShare(c.body0.velocity, c.normal.Times(j), 0.0, 0.0);
    TakeShare(c.body1.velocity, c.normal.Times(j), 0.0, 0.0);
  }

  lemma ScaledTwice(n: Vec, j: real, k: real, jk: real)
    requires j * k == jk
    ensures n.Times(j).Times(k) == n.Times(jk)
  {
    assert n.x * j * k == n.x * (j * k) && n.y * j * k == n.y * (j * k);
  }
}
