/** Momentum and energy of a contact. */
module ContactConservation {
  import opened Geometry
  import opened Bodies
  import opened ContactSpec
  import opened ContactLaws

  function Momentum(c: Contact): Vec {
    c.body0.velocity.Times(c.body0.mass).Plus(c.body1.velocity.Times(c.body1.mass))
  }

  function TwiceKineticEnergy(c: Contact): real {
    TwiceEnergy(c.body0.mass, c.body0.velocity) + TwiceEnergy(c.body1.mass, c.body1.velocity)
  }

  function TwiceEnergy(mass: real, v: Vec): real { mass * v.SquareLength() }

  lemma MassesStay(c: Contact)
    requires Massive(c)
    ensures ResolveVelocity(c).body0.mass == c.body0.mass && ResolveVelocity(c).body1.mass == c.body1.mass
  {
  }

  lemma Push(v: real, p: real, i: real, m: real)
    requires i * m == 1.0
    ensures (v + p * i) * m == v * m + p
    ensures (v - p * i) * m == v * m - p
  {
    assert p * i * m == p * (i * m);
  }

  lemma PushBoth(v0: Vec, v1: Vec, p: Vec, i0: real, i1: real, m0: real, m1: real)
    requires i0 * m0 == 1.0 && i1 * m1 == 1.0
    ensures v0.Plus(p.Times(i0)).Times(m0).Plus(v1.Minus(p.Times(i1)).Times(m1)) == v0.Times(m0).Plus(v1.Times(m1))
  {
    Push(v0.x, p.x, i0, m0);
    Push(v0.y, p.y, i0, m0);
    Push(v1.x, p.x, i1, m1);
    Push(v1.y, p.y, i1, m1);
  }

  /** Two dynamic bodies keep their momentum. */
  lemma MomentumConserved(c: Contact)
    requires Massive(c) && c.body0.kind == DYNAMIC && c.body1.kind == DYNAMIC
    ensures Momentum(ResolveVelocity(c)) == Momentum(c)
  {
    hide Impulse, InverseMass, SeparatingVelocity, Vec.Plus, Vec.Minus, Vec.Times;
    if SeparatingVelocity(c) <= 0.0 {
      InverseMasses(c);
      VelocityAfter(c);
      MassesStay(c);
      PushBoth(c.body0.velocity, c.body1.velocity, c.normal.Times(Impulse(c)),
        InverseMass(c.body0), InverseMass(c.body1), c.body0.mass, c.body1.mass);
    }
  }

  /** The part of the energy along one axis. */
  function AxisEnergy(mass: real, v: real): real { mass * (v * v) }

  lemma EnergyOfPush(v: real, p: real, i: real, m: real, pushed: real, pulled: real)
    requires i * m == 1.0 && pushed == v + p * i && pulled == v - p * i
    ensures AxisEnergy(m, pushed) == AxisEnergy(m, v) + 2.0 * (p * v) + AxisEnergy(i, p)
    ensures AxisEnergy(m, pulled) == AxisEnergy(m, v) - 2.0 * (p * v) + AxisEnergy(i, p)
  {
    assert m * ((v + p * i) * (v + p * i)) == m * (v * v) + 2.0 * (p * v) * (i * m) + (p * p) * i * (i * m);
    assert m * ((v - p * i) * (v - p * i)) == m * (v * v) - 2.0 * (p * v) * (i * m) + (p * p) * i * (i * m);
  }

  /** Twice the energy that an impulse `j` adds at separating velocity `s`. */
  function PushEnergy(j: real, s: real, total: real): real { 2.0 * (j * s) + total * (j * j) }

  /** The same in terms of the restitution `e`: (e^2 - 1) s^2 over the total inverse mass. */
  function EnergyGain(e: real, s: real, total: real): real
    requires total > 0.0
  {
    (e * e - 1.0) * (s * s) / total
  }

  lemma {:induction false} EnergyOfOne(v: Vec, p: Vec, i: real, m: real)
    requires i * m == 1.0
    ensures TwiceEnergy(m, v.Plus(p.Times(i))) == TwiceEnergy(m, v) + 2.0 * p.Dot(v) + i * p.SquareLength()
    ensures TwiceEnergy(m, v.Minus(p.Times(i))) == TwiceEnergy(m, v) - 2.0 * p.Dot(v) + i * p.SquareLength()
  {
    hide TwiceEnergy, AxisEnergy, Vec.SquareLength;
    var pushed, pulled := v.Plus(p.Times(i)), v.Minus(p.Times(i));
    EnergyOfPush(v.x, p.x, i, m, pushed.x, pulled.x);
    EnergyOfPush(v.y, p.y, i, m, pushed.y, pulled.y);
    ByAxis(m, v);
    ByAxis(m, pushed);
    ByAxis(m, pulled);
    ByAxis(i, p);
  }

  lemma ByAxis(k: real, v: Vec)
    ensures TwiceEnergy(k, v) == k * v.SquareLength() == AxisEnergy(k, v.x) + AxisEnergy(k, v.y)
  {
  }

  lemma AlongNormal(v0: Vec, v1: Vec, n: Vec, j: real)
    requires n.SquareLength() == 1.0
    ensures n.Times(j).SquareLength() == j * j
    ensures n.Times(j).Dot(v0) - n.Times(j).Dot(v1) == j * v0.Minus(v1).Dot(n)
  {
    assert n.x * j * (n.x * j) + n.y * j * (n.y * j) == (n.x * n.x + n.y * n.y) * (j * j);
  }

  /** The energy of two bodies after a push along the normal. */
  lemma EnergyOfBoth(v0: Vec, v1: Vec, n: Vec, j: real, i0: real, i1: real, m0: real, m1: real)
    requires i0 * m0 == 1.0 && i1 * m1 == 1.0 && n.SquareLength() == 1.0
    ensures TwiceEnergy(m0, v0.Plus(n.Times(j).Times(i0))) + TwiceEnergy(m1, v1.Minus(n.Times(j).Times(i1)))
         == TwiceEnergy(m0, v0) + TwiceEnergy(m1, v1) + PushEnergy(j, v0.Minus(v1).Dot(n), i0 + i1)
  {
    hide Vec.Plus, Vec.Minus, Vec.Times, Vec.SquareLength, Vec.Dot, TwiceEnergy;
    EnergyOfOne(v0, n.Times(j), i0, m0);
    EnergyOfOne(v1, n.Times(j), i1, m1);
    AlongNormal(v0, v1, n, j);
  }

  /** The energy of both bodies after the push, in terms of the push. */
  lemma EnergyChange(c: Contact)
    requires Massive(c) && c.body0.kind == DYNAMIC && c.body1.kind == DYNAMIC
    requires c.normal.SquareLength() == 1.0 && SeparatingVelocity(c) <= 0.0
    ensures var total, s := InverseMass(c.body0) + InverseMass(c.body1), SeparatingVelocity(c);
            && total > 0.0
            && var j := Impulse(c);
            TwiceKineticEnergy(ResolveVelocity(c)) - TwiceKineticEnergy(c) == PushEnergy(j, s, total)
  {
    InverseMasses(c);
    VelocityAfter(c);
    MassesStay(c);
    hide Impulse, InverseMass, ResolveVelocity, TwiceEnergy, PushEnergy, Vec.Plus, Vec.Minus, Vec.Times, Vec.SquareLength, Vec.Dot;
    EnergyOfBoth(c.body0.velocity, c.body1.velocity, c.normal, Impulse(c),
      InverseMass(c.body0), InverseMass(c.body1), c.body0.mass, c.body1.mass);
  }

  /** Two dynamic bodies change their kinetic energy by (e^2 - 1) s^2 / (2 (1/m0 + 1/m1)). */
  lemma EnergyLaw(c: Contact)
    requires Massive(c) && c.body0.kind == DYNAMIC && c.body1.kind == DYNAMIC
    requires c.normal.SquareLength() == 1.0 && SeparatingVelocity(c) <= 0.0
    ensures var e, s, total := c.restitution, SeparatingVelocity(c), InverseMass(c.body0) + InverseMass(c.body1);
            && total > 0.0
            && TwiceKineticEnergy(ResolveVelocity(c)) - TwiceKineticEnergy(c) == EnergyGain(e, s, total)
  {
    hide Impulse, InverseMass, SeparatingVelocity, ResolveVelocity, TwiceKineticEnergy, PushEnergy, EnergyGain;
    EnergyChange(c);
    ImpulseChange(c);
    EnergyAlgebra(c.restitution, SeparatingVelocity(c), InverseMass(c.body0) + InverseMass(c.body1), Impulse(c));
  }

  lemma EnergyAlgebra(e: real, s: real, total: real, j: real)
    requires total > 0.0 && j * total == -e * s - s
    ensures PushEnergy(j, s, total) == EnergyGain(e, s, total)
  {
    var d := -e * s - s;
    assert total * (2.0 * (j * s) + total * (j * j)) == 2.0 * (j * total) * s + (j * total) * (j * total);
    assert 2.0 * d * s + d * d == (e * e - 1.0) * (s * s);
    Divide(2.0 * (j * s) + total * (j * j), (e * e - 1.0) * (s * s), total);
  }

  lemma Divide(x: real, y: real, z: real)
    requires z != 0.0 && z * x == y
    ensures x == y / z
  {
  }
}
