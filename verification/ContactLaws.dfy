/** What the velocity pass of the contact solver does, once and repeatedly. */
module ContactLaws {
  import opened Geometry
  import opened Bodies
  import opened ContactSpec

  predicate Simple(k: BodyType) { k == DYNAMIC || k == STATIC }

  lemma Inverse(m: real)
    requires m > 0.0
    ensures 1.0 / m > 0.0 && 1.0 / m * m == 1.0
  {
  }

  lemma Quotient(x: real, y: real)
    requires y != 0.0
    ensures x / y * y == x
  {
  }

  lemma InverseMasses(c: Contact)
    requires Massive(c)
    ensures InverseMass(c.body0) > 0.0 && InverseMass(c.body1) > 0.0
    ensures InverseMass(c.body0) * c.body0.mass == 1.0 && InverseMass(c.body1) * c.body1.mass == 1.0
  {
    Inverse(c.body0.mass);
    Inverse(c.body1.mass);
  }

  /** The impulse times the total inverse mass is the change of separating velocity. */
  lemma ImpulseChange(c: Contact)
    requires Massive(c) && InverseMass(c.body0) + InverseMass(c.body1) > 0.0
    ensures Impulse(c) * (InverseMass(c.body0) + InverseMass(c.body1))
         == -c.restitution * SeparatingVelocity(c) - SeparatingVelocity(c)
  {
    var s := SeparatingVelocity(c);
    Quotient(-s * c.restitution - s, InverseMass(c.body0) + InverseMass(c.body1));
  }

  /** How much of the velocity change per impulse a body takes; the other one takes the rest. */
  function Share(mine: real, other: real, me: BodyType, it: BodyType): real {
    (if me == DYNAMIC then mine else 0.0) + if it == STATIC then other else 0.0
  }

  lemma TakeShare(v: Vec, p: Vec, a: real, b: real)
    ensures p.Times(a + b) == p.Times(a).Plus(p.Times(b)) && p.Times(0.0) == ZERO
    ensures v.Plus(p.Times(a)).Plus(p.Times(b)) == v.Plus(p.Times(a + b))
    ensures v.Minus(p.Times(a)).Minus(p.Times(b)) == v.Minus(p.Times(a + b))
    ensures v.Plus(ZERO) == v && v.Minus(ZERO) == v
  {
    assert p.x * (a + b) == p.x * a + p.x * b && p.y * (a + b) == p.y * a + p.y * b;
  }

  lemma VelocityAfter(c: Contact)
    requires Massive(c) && SeparatingVelocity(c) <= 0.0
    ensures var i0, i1 := InverseMass(c.body0), InverseMass(c.body1);
            && i0 + i1 > 0.0
            && var p := c.normal.Times(Impulse(c));
            && ResolveVelocity(c).body0.velocity == c.body0.velocity.Plus(p.Times(Share(i0, i1, c.body0.kind, c.body1.kind)))
            && ResolveVelocity(c).body1.velocity == c.body1.velocity.Minus(p.Times(Share(i1, i0, c.body1.kind, c.body0.kind)))
  {
    InverseMasses(c);
    var i0, i1, p := InverseMass(c.body0), InverseMass(c.body1), c.normal.Times(Impulse(c));
    TakeShare(c.body0.velocity, p, i0, i1);
    TakeShare(c.body1.velocity, p, i1, i0);
  }

  lemma RelativeChange(v0: Vec, v1: Vec, n: Vec, j: real, a: real, b: real)
    requires n.SquareLength() == 1.0
    ensures v0.Plus(n.Times(j).Times(a)).Minus(v1.Minus(n.Times(j).Times(b))).Dot(n) == v0.Minus(v1).Dot(n) + j * (a + b)
  {
    Factor(n.x, j, a, b);
    Factor(n.y, j, a, b);
    assert j * (a + b) * (n.x * n.x) + j * (a + b) * (n.y * n.y) == j * (a + b) * (n.x * n.x + n.y * n.y);
    Spread(v0.x, v1.x, n.x * j * a, n.x * j * b, n.x);
    Spread(v0.y, v1.y, n.y * j * a, n.y * j * b, n.y);
  }

  lemma Factor(n: real, j: real, a: real, b: real)
    ensures (n * j * a + n * j * b) * n == j * (a + b) * (n * n)
  {
  }

  lemma Spread(v: real, w: real, a: real, b: real, n: real)
    ensures (v + a - (w - b)) * n == (v - w) * n + (a + b) * n
  {
  }

  /** The velocity law: a separating velocity s <= 0 along a unit normal becomes -e s, for any mix of
      dynamic and static bodies; a positive one is left alone. */
  lemma {:induction false} VelocityLaw(c: Contact)
    requires Massive(c) && c.normal.SquareLength() == 1.0 && Simple(c.body0.kind) && Simple(c.body1.kind)
    ensures SeparatingVelocity(ResolveVelocity(c))
         == if SeparatingVelocity(c) > 0.0 then SeparatingVelocity(c) else -c.restitution * SeparatingVelocity(c)
  {
    hide Impulse, InverseMass, Vec.Times, Vec.Plus, Vec.SquareLength;
    if SeparatingVelocity(c) <= 0.0 {
      VelocityAfter(c);
      ImpulseChange(c);
      var i0, i1 := InverseMass(c.body0), InverseMass(c.body1);
      RelativeChange(c.body0.velocity, c.body1.velocity, c.normal, Impulse(c),
        Share(i0, i1, c.body0.kind, c.body1.kind), Share(i1, i0, c.body1.kind, c.body0.kind));
    }
  }

  /** The velocity pass changes nothing the second time. */
  lemma VelocityPassIdempotent(c: Contact)
    requires Massive(c) && c.normal.SquareLength() == 1.0 && Simple(c.body0.kind) && Simple(c.body1.kind)
    requires c.restitution >= 0.0
    ensures ResolveVelocity(ResolveVelocity(c)) == ResolveVelocity(c)
  {
    var c' := ResolveVelocity(c);
    var s := SeparatingVelocity(c);
    if s <= 0.0 {
      VelocityLaw(c);
      ProductSign(c.restitution, -s);
      assert SeparatingVelocity(c') >= 0.0;
      if SeparatingVelocity(c') == 0.0 {
        NothingToDo(c');
      }
    }
  }

  lemma NothingToDo(c: Contact)
    requires Massive(c) && SeparatingVelocity(c) == 0.0
    ensures ResolveVelocity(c) == c
  {
    InverseMasses(c);
    ImpulseChange(c);
    KeptByPasses(c);
    hide ResolveVelocity, Impulse, InverseMass, SeparatingVelocity, Share, Vec.Times, Vec.Plus, Vec.Minus;
    VelocityAfter(c);
    NoFactor(c.restitution);
    ZeroFactor(Impulse(c), InverseMass(c.body0) + InverseMass(c.body1));
    NoPush(c.body0.velocity, c.normal, Share(InverseMass(c.body0), InverseMass(c.body1), c.body0.kind, c.body1.kind));
    NoPush(c.body1.velocity, c.normal, Share(InverseMass(c.body1), InverseMass(c.body0), c.body1.kind, c.body0.kind));
  }

  lemma NoFactor(x: real)
    ensures -x * 0.0 - 0.0 == 0.0
  {
  }

  lemma NoPush(v: Vec, n: Vec, k: real)
    ensures v.Plus(n.Times(0.0).Times(k)) == v && v.Minus(n.Times(0.0).Times(k)) == v
  {
  }

  lemma ZeroFactor(x: real, y: real)
    requires y != 0.0 && x * y == 0.0
    ensures x == 0.0
  {
  }

  /** What the two passes do not touch. */
  lemma KeptByPasses(c: Contact)
    requires Massive(c)
    ensures ResolveVelocity(c) == c.(body0 := c.body0.(velocity := ResolveVelocity(c).body0.velocity),
                                     body1 := c.body1.(velocity := ResolveVelocity(c).body1.velocity))
    ensures ResolveInterpenetration(c) == c.(body0 := c.body0.(position := ResolveInterpenetration(c).body0.position),
                                             body1 := c.body1.(position := ResolveInterpenetration(c).body1.position))
  {
  }

  /** The second trip through the rest of `Resolve` leaves the velocities as they are. */
  lemma SecondFinishKeepsVelocities(c: Contact)
    requires Massive(c) && c.normal.SquareLength() == 1.0 && Simple(c.body0.kind) && Simple(c.body1.kind)
    requires MixRestitution(c).restitution >= 0.0
    ensures Finish(Finish(c)).body0.velocity == Finish(c).body0.velocity
    ensures Finish(Finish(c)).body1.velocity == Finish(c).body1.velocity
  {
    var mixed := MixRestitution(c);
    VelocityPassIdempotent(mixed);
    var once := ResolveVelocity(mixed);
    var finished := ResolveInterpenetration(once);
    KeptByPasses(mixed);
    KeptByPasses(once);
    SameMix(c, finished);
    PositionsDoNotMatter(once, finished.body0.position, finished.body1.position);
  }

  lemma SameMix(c: Contact, d: Contact)
    requires Massive(c) && d.body0.mass == c.body0.mass && d.body1.mass == c.body1.mass
    requires d.restitution0 == c.restitution0 && d.restitution1 == c.restitution1
    requires d.restitution == MixRestitution(c).restitution
    ensures MixRestitution(d) == d
  {
  }

  /** Velocities are resolved from velocities only. */
  lemma PositionsDoNotMatter(c: Contact, p0: Vec, p1: Vec)
    requires Massive(c)
    ensures var moved := c.(body0 := c.body0.(position := p0), body1 := c.body1.(position := p1));
            && ResolveVelocity(moved).body0.velocity == ResolveVelocity(c).body0.velocity
            && ResolveVelocity(moved).body1.velocity == ResolveVelocity(c).body1.velocity
  {
    var moved := c.(body0 := c.body0.(position := p0), body1 := c.body1.(position := p1));
    InverseMasses(c);
    assert SeparatingVelocity(moved) == SeparatingVelocity(c) && Impulse(moved) == Impulse(c);
  }
}
