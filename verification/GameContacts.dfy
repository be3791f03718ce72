/** A contact in the game: what resolving two overlapping colliders does to the world, measured again afterwards. */
module GameContacts {
  import opened Geometry
  import opened Bodies
  import opened ContactSpec
  import opened ContactLaws
  import opened ContactPenetration
  import opened ContactMoves
  import opened GameSpec
  import opened GameLaws
  import opened Traversal

  /** A rectangle against a circle is measured the other way round. */
  predicate Exchanged(c: Core, i: nat, j: nat)
    requires i < |c.colliders| && j < |c.colliders|
  {
    c.colliders[i].shape.RectShape? && c.colliders[j].shape.CircleShape?
  }

  /** The pair as it stands in the world, in the order in which it is measured. */
  function Meeting(c: Core, i: nat, j: nat): Contact
    requires i < |c.colliders| && j < |c.colliders|
    requires c.colliders[i].body < |c.bodies| && c.colliders[j].body < |c.bodies|
  {
    if Exchanged(c, i, j) then Swap(ContactOf(c, i, j)) else ContactOf(c, i, j)
  }

  /** Its first and its second body. */
  function FirstBody(c: Core, i: nat, j: nat): nat
    requires i < |c.colliders| && j < |c.colliders|
  {
    c.colliders[if Exchanged(c, i, j) then j else i].body
  }

  function SecondBody(c: Core, i: nat, j: nat): nat
    requires i < |c.colliders| && j < |c.colliders|
  {
    c.colliders[if Exchanged(c, i, j) then i else j].body
  }

  /** A pair that the solver is meant for. */
  ghost predicate Ordinary(cfg: Config, c: Core, i: nat, j: nat) {
    && CoreOk(cfg, c) && Collidable(c, i, j) && IsLength(cfg.length)
    && c.colliders[i].body < |c.bodies| && c.colliders[j].body < |c.bodies|
    && Massive(Meeting(c, i, j))
    && ProperShape(c.colliders[i].shape) && ProperShape(c.colliders[j].shape)
    && Simple(c.bodies[c.colliders[i].body].kind) && Simple(c.bodies[c.colliders[j].body].kind)
    && c.colliders[i].restitution >= 0.0 && c.colliders[j].restitution >= 0.0
    && (Meeting(c, i, j).shape0.CircleShape? ==> cfg.length(Delta(Meeting(c, i, j))) > 0.0)
    && Measure(cfg.length, Meeting(c, i, j)).penetration > 0.0
  }

  /** Resolving writes the two bodies back where they belong, and changes nothing else. */
  lemma WrittenBack(cfg: Config, c: Core, i: nat, j: nat)
    requires CoreOk(cfg, c) && Collidable(c, i, j)
    ensures c.colliders[i].body < |c.bodies| && c.colliders[j].body < |c.bodies| && Massive(ContactOf(c, i, j))
    ensures var x, y, r := FirstBody(c, i, j), SecondBody(c, i, j), Resolve(cfg.length, ContactOf(c, i, j));
            && x != y && ResolveContact(cfg, c, i, j) == c.(bodies := c.bodies[x := r.body0][y := r.body1])
  {
    hide Resolve, SetupOf;
    ResolveKeepsFixed(cfg.length, ContactOf(c, i, j));
    var r := Resolve(cfg.length, ContactOf(c, i, j));
    var a, b := c.colliders[i].body, c.colliders[j].body;
    assert Exchanged(c, i, j) ==> c.bodies[a := r.body1][b := r.body0] == c.bodies[b := r.body0][a := r.body1];
  }

  predicate InRange(c: Core, i: nat, j: nat) {
    i < |c.colliders| && j < |c.colliders| && c.colliders[i].body < |c.bodies| && c.colliders[j].body < |c.bodies|
  }

  /** The two have moved apart along the normal they were measured with, by `a` and by `b`, twice so if the rectangle
      came first; the separating velocity is turned by the mean restitution, and the normal stays. Nothing else in
      the world has changed. */
  ghost predicate Parted(length: Vec -> real, c: Core, c': Core, i: nat, j: nat, a: real, b: real)
    requires InRange(c, i, j) && InRange(c', i, j) && Measurable(Meeting(c, i, j)) && Measurable(Meeting(c', i, j))
    requires Massive(Meeting(c, i, j))
  {
    var k, x, y, m, m' := Meeting(c, i, j), FirstBody(c, i, j), SecondBody(c, i, j), Measure(length, Meeting(c, i, j)),
        Measure(length, Meeting(c', i, j));
    var apart := if Exchanged(c, i, j) then MovedApart(m, a + a, b + b) else MovedApart(m, a, b);
    && c'.colliders == c.colliders && |c'.bodies| == |c.bodies| && x != y
    && (forall l :: 0 <= l < |c.bodies| && l != x && l != y ==> c'.bodies[l] == c.bodies[l])
    && c'.bodies[x].position == apart.body0.position && c'.bodies[y].position == apart.body1.position
    && FixedParts(c.bodies[x], c'.bodies[x]) && FixedParts(c.bodies[y], c'.bodies[y])
    && SeparatingVelocity(m') == Turned(SeparatingVelocity(m), MixRestitution(k).restitution)
    && m'.normal == m.normal
    && m'.penetration == m.penetration - (if Exchanged(c, i, j) then 2.0 else 1.0) * (a + b)
  }

  /** What a contact does: `a` and `b` are the bodies' parts of the penetration. */
  lemma ContactResolved(cfg: Config, c: Core, i: nat, j: nat, a: real, b: real)
    requires Ordinary(cfg, c, i, j)
    requires var k := Meeting(c, i, j);
             var m := Measure(cfg.length, k);
             a == m.penetration * Part(k.body0, k.body1) && b == m.penetration * Part(k.body1, k.body0)
    ensures var c' := ResolveContact(cfg, c, i, j);
            && InRange(c, i, j) && InRange(c', i, j) && Measurable(Meeting(c, i, j)) && Measurable(Meeting(c', i, j))
            && Parted(cfg.length, c, c', i, j, a, b)
  {
    hide Resolve, Measure, MixRestitution, Part, MovedApart, SeparatingVelocity, FixedParts, Delta, ResolveContact, CoreOk,
      Collidable;
    PairInRange(cfg, c, i, j);
    var c', k := ResolveContact(cfg, c, i, j), ContactOf(c, i, j);
    var r := Resolve(cfg.length, k);
    WrittenBack(cfg, c, i, j);
    MeasureKeepsShapes(cfg.length, Meeting(c, i, j));
    if Exchanged(c, i, j) {
      ResolveTwice(cfg.length, k, a, b);
      MixSwapped(k);
    } else {
      ResolveOnce(cfg.length, k, a, b);
    }
    MeasuresPositions(cfg.length, r, Meeting(c', i, j));
    Measures(cfg.length, r, Meeting(c', i, j));
  }

  /** Two solid colliders that overlap are resolved when they are visited. */
  lemma VisitResolves(cfg: Config, c: Core, i: nat, j: nat, a: real, b: real)
    requires Ordinary(cfg, c, i, j) && Attached(c, i) && Attached(c, j) && Touching(cfg, c, i, j)
    requires var k := Meeting(c, i, j);
             var m := Measure(cfg.length, k);
             a == m.penetration * Part(k.body0, k.body1) && b == m.penetration * Part(k.body1, k.body0)
    ensures var c' := VisitPair(cfg, c, i, j);
            && InRange(c, i, j) && InRange(c', i, j) && Measurable(Meeting(c, i, j)) && Measurable(Meeting(c', i, j))
            && Parted(cfg.length, c, c', i, j, a, b)
  {
    hide CoreOk, SetupOf, Measure, Part, Overlap, ResolveContact, OverlapAt;
    OverlapDefined(cfg, c, i, j);
    ContactResolved(cfg, c, i, j, a, b);
    VisitIs(cfg, c, i, j);
  }

  lemma VisitIs(cfg: Config, c: Core, i: nat, j: nat)
    requires CoreOk(cfg, c) && Attached(c, i) && Attached(c, j) && !TriggerPair(c, i, j)
    ensures Touching(cfg, c, i, j) ==>
              && Collidable(c, i, j)
              && VisitPair(cfg, c, i, j).bodies == ResolveContact(cfg, c, i, j).bodies
              && VisitPair(cfg, c, i, j).colliders == ResolveContact(cfg, c, i, j).colliders
    ensures !Touching(cfg, c, i, j) ==> VisitPair(cfg, c, i, j) == c
  {
    hide SetupOf, AllInPlace, Overlap, ResolveContact;
    OverlapDefined(cfg, c, i, j);
  }

  lemma MixSwapped(k: Contact)
    requires Massive(k)
    ensures MixRestitution(Swap(k)).restitution == MixRestitution(k).restitution
  {
    RestitutionIsMean(k);
  }

  lemma PairInRange(cfg: Config, c: Core, i: nat, j: nat)
    requires Collidable(c, i, j)
    ensures i < |c.colliders| && j < |c.colliders|
  {
  }

  lemma Measures(length: Vec -> real, r: Contact, k: Contact)
    requires Measurable(k) && Measurable(r) && Measure(length, k).normal == r.normal
    requires k.body0.velocity == r.body0.velocity && k.body1.velocity == r.body1.velocity
    ensures SeparatingVelocity(Measure(length, k)) == SeparatingVelocity(r)
  {
    MeasureKeepsShapes(length, k);
  }
}
