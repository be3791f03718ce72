/** The contact solver (engine/src/Contact.cpp), over the reals. The length of a vector, a square root
    in the program, is a parameter that satisfies `IsLength`. */
module ContactSpec {
  import opened Geometry
  import opened Bodies

  ghost predicate IsLength(length: Vec -> real) {
    forall v: Vec :: length(v) >= 0.0 && length(v) * length(v) == v.SquareLength()
  }

  /** Two bodies with the shape and restitution of their colliders, and the fields of the contact. */
  datatype Contact = Contact(
    body0: Body, body1: Body, shape0: Shape, shape1: Shape, restitution0: real, restitution1: real,
    normal: Vec, restitution: real, penetration: real)

  function Swap(c: Contact): Contact {
    c.(body0 := c.body1, body1 := c.body0, shape0 := c.shape1, shape1 := c.shape0,
       restitution0 := c.restitution1, restitution1 := c.restitution0)
  }

  /** The vector the normal is taken from: between the centres, or from the rectangle's closest point
      to the circle's centre. */
  function Delta(c: Contact): Vec {
    match c.shape0
    case CircleShape(circle0) =>
      var center := c.body0.position.Plus(circle0.center);
      (match c.shape1
       case CircleShape(circle1) => center.Minus(c.body1.position).Minus(circle1.center)
       case RectShape(rect1) =>
         center.Minus(Vec(Clamp(center.x, rect1.min.x + c.body1.position.x, rect1.max.x + c.body1.position.x),
                          Clamp(center.y, rect1.min.y + c.body1.position.y, rect1.max.y + c.body1.position.y))))
    case RectShape(rect0) =>
      (match c.shape1
       case CircleShape(_) => ZERO
       case RectShape(rect1) => c.body0.position.Plus(Middle(rect0)).Minus(c.body1.position).Minus(Middle(rect1)))
  }

  function Radius(s: Shape): real { if s.CircleShape? then s.circle.radius else 0.0 }

  /** Normal and penetration of a pair whose first shape is a circle. */
  function MeasureCircle(length: Vec -> real, c: Contact): Contact
    requires c.shape0.CircleShape?
  {
    var delta := Delta(c);
    var len := length(delta);
    c.(normal := if len > 0.0 then Vec(delta.x / len, delta.y / len) else UP,
       penetration := Radius(c.shape0) + Radius(c.shape1) - len)
  }

  function RectPenetration(c: Contact): Vec
    requires c.shape0.RectShape? && c.shape1.RectShape?
  {
    HalfSize(c.shape0.rect).Plus(HalfSize(c.shape1.rect)).Minus(Vec(Abs(Delta(c).x), Abs(Delta(c).y)))
  }

  /** Normal and penetration of two rectangles: the axis of least penetration. */
  function MeasureRects(c: Contact): Contact
    requires c.shape0.RectShape? && c.shape1.RectShape?
  {
    var delta, p := Delta(c), RectPenetration(c);
    if p.x < p.y then c.(penetration := p.x, normal := if delta.x > 0.0 then Vec(1.0, 0.0) else Vec(-1.0, 0.0))
    else c.(penetration := p.y, normal := if delta.y > 0.0 then Vec(0.0, 1.0) else Vec(0.0, -1.0))
  }

  function Measure(length: Vec -> real, c: Contact): Contact
    requires c.shape0.RectShape? ==> c.shape1.RectShape?
  {
    if c.shape0.CircleShape? then MeasureCircle(length, c) else MeasureRects(c)
  }

  function MixRestitution(c: Contact): Contact
    requires c.body0.mass + c.body1.mass != 0.0
  {
    c.(restitution := (c.body0.mass * c.restitution0 + c.body1.mass * c.restitution1) / (c.body0.mass + c.body1.mass))
  }

  function SeparatingVelocity(c: Contact): real { c.body0.velocity.Minus(c.body1.velocity).Dot(c.normal) }

  predicate Massive(c: Contact) { c.body0.mass > 0.0 && c.body1.mass > 0.0 }

  /** Bodies whose inverse masses, and the mean weighted by their masses, are finite. Their masses may be
      negative, as those of disabled bodies are. */
  predicate Weighable(c: Contact) { c.body0.mass != 0.0 && c.body1.mass != 0.0 && c.body0.mass + c.body1.mass != 0.0 }

  function InverseMass(b: Body): real
    requires b.mass != 0.0
  {
    1.0 / b.mass
  }

  /** The change of separating velocity from s to -e s, per unit of inverse mass. */
  function Impulse(c: Contact): real
    requires Weighable(c) && InverseMass(c.body0) + InverseMass(c.body1) > 0.0
  {
    var s := SeparatingVelocity(c);
    (-s * c.restitution - s) / (InverseMass(c.body0) + InverseMass(c.body1))
  }

  function ResolveVelocity(c: Contact): Contact
    requires Weighable(c)
  {
    if SeparatingVelocity(c) > 0.0 then c
    else
      var i0, i1 := InverseMass(c.body0), InverseMass(c.body1);
      if i0 + i1 <= 0.0 then c
      else
        var perMass := c.normal.Times(Impulse(c));
        var v0, v1 := c.body0.velocity, c.body1.velocity;
        var v0' := if c.body0.kind == DYNAMIC then v0.Plus(perMass.Times(i0)) else v0;
        var v1' := if c.body1.kind == DYNAMIC then v1.Minus(perMass.Times(i1)) else v1;
        var v1'' := if c.body0.kind == STATIC then v1'.Minus(perMass.Times(i0)) else v1';
        var v0'' := if c.body1.kind == STATIC then v0'.Plus(perMass.Times(i1)) else v0';
        c.(body0 := c.body0.(velocity := v0''), body1 := c.body1.(velocity := v1''))
  }

  function ResolveInterpenetration(c: Contact): Contact
    requires Weighable(c)
  {
    var i0, i1 := InverseMass(c.body0), InverseMass(c.body1);
    if c.penetration <= 0.0 || i0 + i1 <= 0.0 then c
    else
      var perMass := c.normal.Times(c.penetration / (i0 + i1));
      var p0 := if c.body0.kind == DYNAMIC then c.body0.position.Plus(perMass.Times(i0)) else c.body0.position;
      var p1 := if c.body1.kind == DYNAMIC then c.body1.position.Minus(perMass.Times(i1)) else c.body1.position;
      c.(body0 := c.body0.(position := p0), body1 := c.body1.(position := p1))
  }

  /** The part of `Resolve` after the case distinction. */
  function Finish(c: Contact): Contact
    requires Weighable(c)
  {
    ResolveInterpenetration(ResolveVelocity(MixRestitution(c)))
  }

  /** `Resolve`: a rectangle against a circle is swapped and resolved, and then goes through the rest of
      the function a second time. */
  function Resolve(length: Vec -> real, c: Contact): Contact
    requires Weighable(c)
  {
    if c.shape0.RectShape? && c.shape1.CircleShape? then Finish(Finish(Measure(length, Swap(c))))
    else Finish(Measure(length, c))
  }
}
