/** The game of one match as a value (common/src/Game.cpp, engine/src/World.cpp): one fixed update is a
    function of the bodies, colliders, open trigger pairs, flags, timers and scores. */
module GameSpec {
  import opened Inputs
  import opened Geometry
  import opened Bodies
  import opened ContactSpec
  import opened QuadTreeSpec

  const FPS := 60.0
  const FIXED_DELTA_TIME := 1.0 / FPS
  const BALL_GRAVITY := 1000.0
  const PLAYER_GRAVITY := 2500.0
  const WALK_SPEED := 1500.0
  const MAX_SPEED := 1200.0
  const JUMP_SPEED := -75000.0
  const SHOOT_FORCE := 25000.0
  const WINDOW_WIDTH := 1200.0
  const WINDOW_HEIGHT := 800.0

  // Node capacity and depth limit of the quadtree.
  const MAX_COL_NBR := 16
  const MAX_DEPTH := 1

  // The largest and the smallest positive finite single-precision numbers.
  const FLOAT_MAX := 340282346638528859811704183484516925440.0
  const FLOAT_MIN := 1.0 / 85070591730234615865843651857942052864.0

  /** An unordered pair of colliders, as the pair set compares them: kept with the smaller index first. */
  datatype Pair = Pair(low: nat, high: nat)

  function PairOf(a: nat, b: nat): Pair { if a < b then Pair(a, b) else Pair(b, a) }

  lemma PairIsSymmetric(a: nat, b: nat, c: nat, d: nat)
    ensures PairOf(a, b) == PairOf(c, d) <==> (a == c && b == d) || (a == d && b == c)
  {
  }

  /** What happens to a trigger pair. The log of these events is kept by the model only. */
  datatype Event = Enter(pair: Pair) | Exit(pair: Pair)

  /** The bodies and colliders that `Setup` creates, the same in every game, and the vector length. */
  datatype Config = Config(
    ground: nat,
    blueBody: nat, blueCol: nat, blueFeet: nat,
    redBody: nat, redCol: nat, redFeet: nat,
    ballBody: nat, ballCol: nat,
    leftGoal: nat, rightGoal: nat,
    colRefs: seq<nat>,
    length: Vec -> real)

  /** What `Copy` copies, apart from the two inputs and the nodes of the quadtree. */
  datatype Core = Core(
    bodies: seq<Body>, colliders: seq<Collider>, pairs: set<Pair>,
    blueGrounded: bool, blueKickTime: real, canBlueKick: bool, blueScore: int,
    redGrounded: bool, redKickTime: real, canRedKick: bool, redScore: int,
    events: seq<Event>)

  /** Every attached collider has a body with a mass, no enabled body is massless, and the references
      are in range. */
  predicate CoreOk(cfg: Config, c: Core) { AllInPlace(cfg, c.bodies, c.colliders) }

  predicate AllInPlace(cfg: Config, bodies: seq<Body>, colliders: seq<Collider>) {
    && (forall i :: 0 <= i < |bodies| ==> bodies[i].mass != 0.0)
    && (forall i :: 0 <= i < |colliders| && colliders[i].isAttached ==>
          colliders[i].body < |bodies| && bodies[colliders[i].body].mass > 0.0)
    && cfg.blueBody < |bodies| && cfg.redBody < |bodies| && cfg.ballBody < |bodies|
    && (forall k :: 0 <= k < |cfg.colRefs| ==> cfg.colRefs[k] < |colliders|)
  }

  /** The parts of bodies and colliders that never change after `Setup`. */
  datatype Fixed = Fixed(mass: real, kind: BodyType)
  datatype Setup = Setup(bodies: seq<Fixed>, colliders: seq<Collider>)

  function FixedOf(b: Body): Fixed { Fixed(b.mass, b.kind) }

  function SetupFrom(bodies: seq<Body>, colliders: seq<Collider>): Setup {
    Setup(seq(|bodies|, i requires 0 <= i < |bodies| => FixedOf(bodies[i])),
          seq(|colliders|, i requires 0 <= i < |colliders| => colliders[i].(bodyPosition := ZERO)))
  }

  function SetupOf(c: Core): Setup { SetupFrom(c.bodies, c.colliders) }

  lemma SameSetup(cfg: Config, c: Core, c': Core)
    requires SetupOf(c') == SetupOf(c)
    ensures |c'.bodies| == |c.bodies| && |c'.colliders| == |c.colliders|
    ensures forall i :: 0 <= i < |c.bodies| ==> FixedOf(c'.bodies[i]) == FixedOf(c.bodies[i])
    ensures forall i :: 0 <= i < |c.colliders| ==>
              c'.colliders[i] == c.colliders[i].(bodyPosition := c'.colliders[i].bodyPosition)
    ensures CoreOk(cfg, c) ==> CoreOk(cfg, c')
  {
    forall i | 0 <= i < |c.bodies| ensures FixedOf(c'.bodies[i]) == FixedOf(c.bodies[i]) {
      assert SetupOf(c').bodies[i] == SetupOf(c).bodies[i];
    }
    forall i | 0 <= i < |c.colliders|
      ensures c'.colliders[i] == c.colliders[i].(bodyPosition := c'.colliders[i].bodyPosition)
    {
      assert SetupOf(c').colliders[i] == SetupOf(c).colliders[i];
    }
  }

  /** Change one body, but not its mass or kind. */
  function WithBody(cfg: Config, c: Core, k: nat, b: Body): (c': Core)
    requires CoreOk(cfg, c) && k < |c.bodies| && FixedOf(b) == FixedOf(c.bodies[k])
    ensures CoreOk(cfg, c') && SetupOf(c') == SetupOf(c)
  {
    var c' := c.(bodies := c.bodies[k := b]);
    assert SetupOf(c').bodies == SetupOf(c).bodies;
    SameSetup(cfg, c, c');
    c'
  }

  // ----- World::UpdateBodies -----

  function Integrate(b: Body, dt: real): Body
    requires b.mass != 0.0
  {
    if !b.IsEnabled() || b.kind == STATIC then b
    else
      var acceleration := Vec(b.force.x / b.mass, b.force.y / b.mass);
      var velocity := b.velocity.Plus(acceleration.Times(dt));
      b.(velocity := velocity, position := b.position.Plus(velocity.Times(dt)), force := ZERO)
  }

  function UpdateBodies(cfg: Config, c: Core, dt: real): (c': Core)
    requires CoreOk(cfg, c)
    ensures CoreOk(cfg, c') && SetupOf(c') == SetupOf(c)
  {
    var c' := c.(bodies := seq(|c.bodies|, i requires 0 <= i < |c.bodies| => Integrate(c.bodies[i], dt)));
    assert SetupOf(c').bodies == SetupOf(c).bodies;
    SameSetup(cfg, c, c');
    c'
  }

  // ----- World::SetUpQuadTree -----

  function Placed(c: Core, i: nat): Collider
    requires i < |c.colliders| && (c.colliders[i].isAttached ==> c.colliders[i].body < |c.bodies|)
  {
    var collider := c.colliders[i];
    if collider.isAttached then collider.(bodyPosition := c.bodies[collider.body].position) else collider
  }

  /** The colliders with the current positions of their bodies. */
  function PlaceColliders(cfg: Config, c: Core): (c': Core)
    requires CoreOk(cfg, c)
    ensures CoreOk(cfg, c') && SetupOf(c') == SetupOf(c) && c' == c.(colliders := c'.colliders)
  {
    var c' := c.(colliders := seq(|c.colliders|, i requires 0 <= i < |c.colliders| => Placed(c, i)));
    assert SetupOf(c').colliders == SetupOf(c).colliders;
    SameSetup(cfg, c, c');
    c'
  }

  /** The attached colliders among the first `n` with their bounds, in order. */
  function Entries(colliders: seq<Collider>, n: nat): seq<Entry>
    requires n <= |colliders|
  {
    if n == 0 then []
    else Entries(colliders, n - 1)
         + if colliders[n - 1].isAttached then [Entry(GetBounds(colliders[n - 1]), n - 1)] else []
  }

  /** The smallest box around two boxes. */
  function Widen(b: Rect, a: Rect): Rect {
    Rect(Vec(MinReal(b.min.x, a.min.x), MinReal(b.min.y, a.min.y)), Vec(MaxReal(b.max.x, a.max.x), MaxReal(b.max.y, a.max.y)))
  }

  /** The bounds of the root: the box around all entries, starting from the extreme floats. */
  function RootBounds(es: seq<Entry>): Rect {
    if es == [] then Rect(Vec(FLOAT_MAX, FLOAT_MAX), Vec(FLOAT_MIN, FLOAT_MIN))
    else Widen(RootBounds(es[..|es| - 1]), es[|es| - 1].aabb)
  }

  function BuildFrom(t: Tree, es: seq<Entry>, capacity: nat, maxDepth: nat): (t': Tree)
    requires WellFormed(t, maxDepth)
    ensures WellFormed(t', maxDepth) && t'.bounds == t.bounds
  {
    if es == [] then t
    else Insert(BuildFrom(t, es[..|es| - 1], capacity, maxDepth), es[|es| - 1], capacity, maxDepth)
  }

  function BuildTree(es: seq<Entry>, capacity: nat, maxDepth: nat): (t: Tree)
    ensures WellFormed(t, maxDepth)
  {
    BuildFrom(Leaf([], RootBounds(es), 0), es, capacity, maxDepth)
  }

  // ----- World::Overlap, Contact, Game's callbacks -----

  predicate Overlap(c: Core, i: nat, j: nat)
    requires i < |c.colliders| && j < |c.colliders|
    requires c.colliders[i].body < |c.bodies| && c.colliders[j].body < |c.bodies|
  {
    var a, b := c.colliders[i], c.colliders[j];
    OverlapAt(a.shape, c.bodies[a.body].position, b.shape, c.bodies[b.body].position)
  }

  function ContactOf(c: Core, i: nat, j: nat): Contact
    requires i < |c.colliders| && j < |c.colliders|
    requires c.colliders[i].body < |c.bodies| && c.colliders[j].body < |c.bodies|
  {
    var a, b := c.colliders[i], c.colliders[j];
    Contact(c.bodies[a.body], c.bodies[b.body], a.shape, b.shape, a.restitution, b.restitution, ZERO, 1.0, 0.0)
  }

  lemma ResolveKeepsFixed(length: Vec -> real, k: Contact)
    requires Massive(k)
    ensures var r, exchanged := Resolve(length, k), k.shape0.RectShape? && k.shape1.CircleShape?;
            && FixedOf(if exchanged then r.body1 else r.body0) == FixedOf(k.body0)
            && FixedOf(if exchanged then r.body0 else r.body1) == FixedOf(k.body1)
  {
  }

  /** Resolve the contact of two colliders and write their bodies back; a rectangle against a circle
      comes back with the two exchanged. */
  function ResolveContact(cfg: Config, c: Core, i: nat, j: nat): (c': Core)
    requires CoreOk(cfg, c) && Collidable(c, i, j)
    ensures CoreOk(cfg, c') && SetupOf(c') == SetupOf(c)
  {
    ResolveKeepsFixed(cfg.length, ContactOf(c, i, j));
    hide Resolve, SetupOf;
    var a, b := c.colliders[i], c.colliders[j];
    var r := Resolve(cfg.length, ContactOf(c, i, j));
    var exchanged := a.shape.RectShape? && b.shape.CircleShape?;
    var c' := WithBody(cfg, c, a.body, if exchanged then r.body1 else r.body0);
    WithBody(cfg, c', b.body, if exchanged then r.body0 else r.body1)
  }

  /** Two attached colliders of different bodies. */
  predicate Collidable(c: Core, i: nat, j: nat) {
    && i < |c.colliders| && j < |c.colliders|
    && c.colliders[i].isAttached && c.colliders[j].isAttached
    && c.colliders[i].body != c.colliders[j].body
  }

  function ResetBody(b: Body, x: real, y: real): Body { b.(position := Vec(x, y), velocity := ZERO) }

  function ResetBodies(cfg: Config, bs: seq<Body>): seq<Body>
    requires cfg.ballBody < |bs| && cfg.blueBody < |bs| && cfg.redBody < |bs|
  {
    var bs1 := bs[cfg.ballBody := ResetBody(bs[cfg.ballBody], WINDOW_WIDTH * 0.5, WINDOW_HEIGHT * 0.5)];
    var bs2 := bs1[cfg.blueBody := ResetBody(bs1[cfg.blueBody], WINDOW_WIDTH * 0.33, WINDOW_HEIGHT * 0.66)];
    bs2[cfg.redBody := ResetBody(bs2[cfg.redBody], WINDOW_WIDTH - WINDOW_WIDTH * 0.33, WINDOW_HEIGHT * 0.66)]
  }

  function ResetPositions(cfg: Config, c: Core): (c': Core)
    requires CoreOk(cfg, c)
    ensures CoreOk(cfg, c') && SetupOf(c') == SetupOf(c)
  {
    var c' := c.(bodies := ResetBodies(cfg, c.bodies));
    assert SetupOf(c').bodies == SetupOf(c).bodies;
    SameSetup(cfg, c, c');
    c'
  }

  /** Are these the two colliders, in either order? */
  predicate Between(a: nat, b: nat, x: nat, y: nat) { (a == x && b == y) || (b == x && a == y) }

  /** Feet that reach the ball may kick it. */
  function AllowKick(cfg: Config, c: Core, a: nat, b: nat): Core {
    c.(canBlueKick := c.canBlueKick || Between(a, b, cfg.blueFeet, cfg.ballCol),
       canRedKick := c.canRedKick || Between(a, b, cfg.redFeet, cfg.ballCol))
  }

  /** A ball that reaches a goal scores for the other side and puts everyone back. */
  function ScoreLeft(cfg: Config, c: Core, a: nat, b: nat): (c': Core)
    requires CoreOk(cfg, c)
    ensures CoreOk(cfg, c') && SetupOf(c') == SetupOf(c)
  {
    if Between(a, b, cfg.leftGoal, cfg.ballCol) then ResetPositions(cfg, c.(redScore := c.redScore + 1)) else c
  }

  function ScoreRight(cfg: Config, c: Core, a: nat, b: nat): (c': Core)
    requires CoreOk(cfg, c)
    ensures CoreOk(cfg, c') && SetupOf(c') == SetupOf(c)
  {
    if Between(a, b, cfg.rightGoal, cfg.ballCol) then ResetPositions(cfg, c.(blueScore := c.blueScore + 1)) else c
  }

  function OnTriggerEnter(cfg: Config, c: Core, a: nat, b: nat): (c': Core)
    requires CoreOk(cfg, c)
    ensures CoreOk(cfg, c') && SetupOf(c') == SetupOf(c)
  {
    ScoreRight(cfg, ScoreLeft(cfg, AllowKick(cfg, c, a, b), a, b), a, b)
  }

  function OnTriggerExit(cfg: Config, c: Core, a: nat, b: nat): (c': Core) {
    var c1 := if Between(a, b, cfg.blueFeet, cfg.ballCol) then c.(canBlueKick := false) else c;
    if Between(a, b, cfg.redFeet, cfg.ballCol) then c1.(canRedKick := false) else c1
  }

  function OnCollisionEnter(cfg: Config, c: Core, a: nat, b: nat): Core {
    if Between(a, b, cfg.blueCol, cfg.ground) then c.(blueGrounded := true)
    else if Between(a, b, cfg.redCol, cfg.ground) then c.(redGrounded := true)
    else c
  }

  // ----- World::UpdateQuadTreeCollisions -----

  /** A pair with a trigger: enter when it starts to overlap, exit when it has stopped. */
  function VisitTrigger(cfg: Config, c: Core, i: nat, j: nat): (c': Core)
    requires CoreOk(cfg, c) && Collidable(c, i, j)
    ensures CoreOk(cfg, c') && SetupOf(c') == SetupOf(c)
  {
    var pair := PairOf(i, j);
    if pair in c.pairs then
      if Overlap(c, i, j) then c
      else
        var c' := OnTriggerExit(cfg, c, i, j);
        c'.(pairs := c'.pairs - {pair}, events := c'.events + [Exit(pair)])
    else if Overlap(c, i, j) then
      var c' := OnTriggerEnter(cfg, c, i, j);
      c'.(pairs := c'.pairs + {pair}, events := c'.events + [Enter(pair)])
    else c
  }

  /** One pair of a leaf. */
  function VisitPair(cfg: Config, c: Core, i: nat, j: nat): (c': Core)
    requires CoreOk(cfg, c)
    requires i < |c.colliders| && j < |c.colliders| && c.colliders[i].isAttached && c.colliders[j].isAttached
    ensures CoreOk(cfg, c') && SetupOf(c') == SetupOf(c)
  {
    hide SetupOf;
    if c.colliders[i].body == c.colliders[j].body then c
    else if !c.colliders[j].isTrigger && !c.colliders[i].isTrigger then
      if Overlap(c, i, j) then OnCollisionEnter(cfg, ResolveContact(cfg, c, i, j), i, j) else c
    else VisitTrigger(cfg, c, i, j)
  }

  /** Entries that stand for attached colliders. */
  predicate EntriesOk(c: Core, es: seq<Entry>) {
    forall e :: e in es ==> e.collider < |c.colliders| && c.colliders[e.collider].isAttached
  }

  /** Entry `i` of a leaf against the entries from position `j` on. */
  function VisitAgainst(cfg: Config, c: Core, es: seq<Entry>, i: nat, j: nat): (c': Core)
    requires CoreOk(cfg, c) && EntriesOk(c, es) && i < |es| && j <= |es|
    ensures CoreOk(cfg, c') && SetupOf(c') == SetupOf(c)
    decreases |es| - j
  {
    if j == |es| then c
    else
      SameSetup(cfg, c, VisitPair(cfg, c, es[i].collider, es[j].collider));
      VisitAgainst(cfg, VisitPair(cfg, c, es[i].collider, es[j].collider), es, i, j + 1)
  }

  /** All pairs of a leaf whose first entry is at position `i` or later. */
  function VisitLeaf(cfg: Config, c: Core, es: seq<Entry>, i: nat): (c': Core)
    requires CoreOk(cfg, c) && EntriesOk(c, es) && i <= |es|
    ensures CoreOk(cfg, c') && SetupOf(c') == SetupOf(c)
    decreases |es| - i
  {
    if i == |es| then c
    else
      SameSetup(cfg, c, VisitAgainst(cfg, c, es, i, i + 1));
      VisitLeaf(cfg, VisitAgainst(cfg, c, es, i, i + 1), es, i + 1)
  }

  /** Leaves of a tree over attached colliders. */
  predicate LeavesOk(c: Core, leaves: seq<Tree>) {
    forall t :: t in leaves ==> t.Leaf? && EntriesOk(c, t.entries)
  }

  function VisitLeaves(cfg: Config, c: Core, leaves: seq<Tree>): (c': Core)
    requires CoreOk(cfg, c) && LeavesOk(c, leaves)
    ensures CoreOk(cfg, c') && SetupOf(c') == SetupOf(c)
    decreases |leaves|
  {
    if leaves == [] then c
    else
      var c' := VisitLeaf(cfg, c, leaves[0].entries, 0);
      SameSetup(cfg, c, c');
      VisitLeaves(cfg, c', leaves[1..])
  }

  // ----- the tree that is built -----

  lemma {:induction false} BuiltHolds(t: Tree, es: seq<Entry>, capacity: nat, maxDepth: nat)
    requires WellFormed(t, maxDepth) && Holds(t, [])
    ensures Holds(BuildFrom(t, es, capacity, maxDepth), es)
    decreases |es|
  {
    if es != [] {
      var rest, e := es[..|es| - 1], es[|es| - 1];
      BuiltHolds(t, rest, capacity, maxDepth);
      InsertHolds(BuildFrom(t, rest, capacity, maxDepth), e, rest, capacity, maxDepth);
      assert rest + [e] == es;
    }
  }

  /** The entries are the attached colliders, each once and in order. */
  lemma {:induction false} EntriesAre(colliders: seq<Collider>, n: nat)
    requires n <= |colliders|
    ensures NoDuplicates(Entries(colliders, n))
    ensures forall e :: e in Entries(colliders, n) <==>
              e.collider < n && colliders[e.collider].isAttached && e.aabb == GetBounds(colliders[e.collider])
  {
    if n > 0 {
      EntriesAre(colliders, n - 1);
    }
  }

  /** The root's bounds meet every entry. */
  lemma {:induction false} RootMeetsAll(es: seq<Entry>, e: Entry)
    requires e in es && forall x :: x in es ==> Proper(x.aabb)
    ensures RectsIntersect(e.aabb, RootBounds(es)) && Proper(RootBounds(es))
    decreases |es|
  {
    var rest, last := es[..|es| - 1], es[|es| - 1];
    assert es == rest + [last] && last in es;
    assert forall x :: x in rest ==> x in es;
    if e in rest {
      RootMeetsAll(rest, e);
    }
    RootIsWide(rest, e);
    RootIsWide(es, e);
    RootIsWide(es, last);
  }

  /** The root's bounds reach at least as far as every entry. */
  lemma {:induction false} RootIsWide(es: seq<Entry>, e: Entry)
    ensures e in es ==>
              && RootBounds(es).min.x <= e.aabb.min.x && RootBounds(es).min.y <= e.aabb.min.y
              && e.aabb.max.x <= RootBounds(es).max.x && e.aabb.max.y <= RootBounds(es).max.y
    decreases |es|
  {
    if es != [] {
      RootIsWide(es[..|es| - 1], e);
      assert es == es[..|es| - 1] + [es[|es| - 1]];
    }
  }

  /** And no farther than needed: any box that holds all entries and the least float holds them. */
  lemma {:induction false} RootIsLeast(es: seq<Entry>, b: Rect)
    requires es != [] && b.max.x >= FLOAT_MIN && b.max.y >= FLOAT_MIN && b.min.x <= FLOAT_MAX && b.min.y <= FLOAT_MAX
    requires forall e :: e in es ==>
               b.min.x <= e.aabb.min.x && b.min.y <= e.aabb.min.y && e.aabb.max.x <= b.max.x && e.aabb.max.y <= b.max.y
    ensures Within(RootBounds(es), b)
    decreases |es|
  {
    var rest, last := es[..|es| - 1], es[|es| - 1];
    assert last in es && forall e :: e in rest ==> e in es;
    if rest != [] {
      RootIsLeast(rest, b);
    }
  }

  /** The tree over the placed colliders of a game. */
  function TreeOf(cfg: Config, c: Core): (t: Tree)
    ensures WellFormed(t, MAX_DEPTH)
  {
    BuildTree(Entries(c.colliders, |c.colliders|), MAX_COL_NBR, MAX_DEPTH)
  }

  lemma {:induction false} LeafEntriesIn(t: Tree, es: seq<Entry>, leaf: Tree, maxDepth: nat)
    requires WellFormed(t, maxDepth) && Holds(t, es) && leaf in Leaves(t)
    ensures leaf.Leaf? && forall e :: e in leaf.entries ==> e in es
    decreases t
  {
    if t.Inner? {
      InLeaves(t, leaf);
      var k :| 0 <= k < 4 && leaf in Leaves(t.children[k]);
      var b := t.children[k].bounds;
      forall e | e in Meeting(es, b) ensures e in es {
        MeetingIs(es, b, e);
      }
      LeafEntriesIn(t.children[k], Meeting(es, b), leaf, maxDepth);
    }
  }

  lemma LeavesOfTreeOk(cfg: Config, c: Core)
    ensures LeavesOk(c, Leaves(TreeOf(cfg, c)))
  {
    var es := Entries(c.colliders, |c.colliders|);
    BuiltHolds(Leaf([], RootBounds(es), 0), es, MAX_COL_NBR, MAX_DEPTH);
    EntriesAre(c.colliders, |c.colliders|);
    forall leaf | leaf in Leaves(TreeOf(cfg, c)) ensures leaf.Leaf? && EntriesOk(c, leaf.entries) {
      LeafEntriesIn(TreeOf(cfg, c), es, leaf, MAX_DEPTH);
    }
  }

  // ----- World::Update -----

  function WorldUpdate(cfg: Config, c: Core, dt: real): (c': Core)
    requires CoreOk(cfg, c)
    ensures CoreOk(cfg, c') && SetupOf(c') == SetupOf(c)
  {
    var placed := PlaceColliders(cfg, UpdateBodies(cfg, c, dt));
    LeavesOfTreeOk(cfg, placed);
    VisitLeaves(cfg, placed, Leaves(TreeOf(cfg, placed)))
  }

  // ----- Game::FixedUpdate -----

  function Push(bodies: seq<Body>, k: nat, f: Vec): seq<Body>
    requires k < |bodies|
  {
    bodies[k := bodies[k].ApplyForce(f)]
  }

  function ApplyForce(cfg: Config, c: Core, k: nat, f: Vec): (c': Core)
    requires CoreOk(cfg, c) && k < |c.bodies|
    ensures CoreOk(cfg, c') && SetupOf(c') == SetupOf(c) && c' == c.(bodies := Push(c.bodies, k, f))
  {
    WithBody(cfg, c, k, c.bodies[k].ApplyForce(f))
  }

  predicate Pressed(i: Input, key: Input) { i & key != 0 }

  function Walk(cfg: Config, c: Core, body: nat, i: Input): (c': Core)
    requires CoreOk(cfg, c) && body < |c.bodies|
    ensures CoreOk(cfg, c') && SetupOf(c') == SetupOf(c) && c' == c.(bodies := c'.bodies)
  {
    var c1 := if Pressed(i, RIGHT) then ApplyForce(cfg, c, body, Vec(WALK_SPEED, 0.0)) else c;
    if Pressed(i, LEFT) then ApplyForce(cfg, c1, body, Vec(-WALK_SPEED, 0.0)) else c1
  }

  /** The blue player's input: walk, jump from the ground, kick. */
  function BlueInput(cfg: Config, c: Core, i: Input): (c': Core)
    requires CoreOk(cfg, c)
    ensures CoreOk(cfg, c') && SetupOf(c') == SetupOf(c)
  {
    var c1 := Walk(cfg, c, cfg.blueBody, i);
    var c2 := if Pressed(i, JUMP) && c1.blueGrounded
              then ApplyForce(cfg, c1, cfg.blueBody, Vec(0.0, JUMP_SPEED)).(blueGrounded := false) else c1;
    if Pressed(i, KICK) && c2.canBlueKick && c2.blueKickTime >= 1.0
    then ApplyForce(cfg, c2, cfg.ballBody, Vec(SHOOT_FORCE, -SHOOT_FORCE)).(blueKickTime := 0.0) else c2
  }

  function RedInput(cfg: Config, c: Core, i: Input): (c': Core)
    requires CoreOk(cfg, c)
    ensures CoreOk(cfg, c') && SetupOf(c') == SetupOf(c)
  {
    var c1 := Walk(cfg, c, cfg.redBody, i);
    var c2 := if Pressed(i, JUMP) && c1.redGrounded
              then ApplyForce(cfg, c1, cfg.redBody, Vec(0.0, JUMP_SPEED)).(redGrounded := false) else c1;
    if Pressed(i, KICK) && c2.canRedKick && c2.redKickTime >= 1.0
    then ApplyForce(cfg, c2, cfg.ballBody, Vec(-SHOOT_FORCE, -SHOOT_FORCE)).(redKickTime := 0.0) else c2
  }

  /** A game: what is copied, the number of its own player, the two inputs, and whether it is running. */
  datatype Game = Game(core: Core, playerNbr: int, input: Input, otherInput: Input, inGame: bool)

  /** Own input first, then the other one's. */
  function ProcessInput(cfg: Config, g: Game, c: Core): (c': Core)
    requires CoreOk(cfg, c)
    ensures CoreOk(cfg, c') && SetupOf(c') == SetupOf(c)
  {
    if g.playerNbr == 0 then RedInput(cfg, BlueInput(cfg, c, g.input), g.otherInput)
    else BlueInput(cfg, RedInput(cfg, c, g.input), g.otherInput)
  }

  function LimitSpeed(b: Body): Body {
    if b.velocity.x > MAX_SPEED then b.(velocity := Vec(MAX_SPEED, b.velocity.y))
    else if b.velocity.x < -MAX_SPEED then b.(velocity := Vec(-MAX_SPEED, b.velocity.y))
    else b
  }

  /** A player's body: limited speed, gravity, and friction on the ground when not walking. */
  function MovePlayer(b: Body, i: Input, grounded: bool): Body {
    var b' := LimitSpeed(b).ApplyForce(Vec(0.0, PLAYER_GRAVITY));
    if !Pressed(i, RIGHT) && !Pressed(i, LEFT) && grounded
    then b'.(velocity := b'.velocity.Plus(ZERO.Minus(b'.velocity).Times(1.0 / 10.0)))
    else b'
  }

  /** The input the loop over the colliders reads for the blue player, and for the red one. */
  function BlueOf(g: Game): Input { if g.playerNbr == 0 then g.input else g.otherInput }
  function RedOf(g: Game): Input { if g.playerNbr == 1 then g.input else g.otherInput }

  /** What the loop over the colliders does for one of them. */
  function AfterInput(cfg: Config, blue: Input, red: Input, c: Core, col: nat): (c': Core)
    requires CoreOk(cfg, c) && col < |c.colliders|
    ensures CoreOk(cfg, c') && SetupOf(c') == SetupOf(c)
  {
    var body := c.colliders[col].body;
    if body == cfg.ballBody then ApplyForce(cfg, c, body, Vec(0.0, BALL_GRAVITY))
    else if body == cfg.blueBody then WithBody(cfg, c, body, MovePlayer(c.bodies[body], blue, c.blueGrounded))
    else if body == cfg.redBody then WithBody(cfg, c, body, MovePlayer(c.bodies[body], red, c.redGrounded))
    else c
  }

  function AfterInputs(cfg: Config, blue: Input, red: Input, c: Core, n: nat): (c': Core)
    requires CoreOk(cfg, c) && n <= |cfg.colRefs|
    ensures CoreOk(cfg, c') && SetupOf(c') == SetupOf(c)
  {
    if n == 0 then c
    else
      var c' := AfterInputs(cfg, blue, red, c, n - 1);
      SameSetup(cfg, c, c');
      AfterInput(cfg, blue, red, c', cfg.colRefs[n - 1])
  }

  /** World and kick timers, which do not know the players' inputs. */
  function Ticked(cfg: Config, c: Core): (c': Core)
    requires CoreOk(cfg, c)
    ensures CoreOk(cfg, c') && SetupOf(c') == SetupOf(c)
  {
    var c1 := WorldUpdate(cfg, c, FIXED_DELTA_TIME);
    c1.(blueKickTime := c1.blueKickTime + FIXED_DELTA_TIME, redKickTime := c1.redKickTime + FIXED_DELTA_TIME)
  }

  /** What the inputs add to a ticked game. */
  function WithInputs(cfg: Config, g: Game, c: Core): (c': Core)
    requires CoreOk(cfg, c)
    ensures CoreOk(cfg, c') && SetupOf(c') == SetupOf(c)
  {
    AfterInputs(cfg, BlueOf(g), RedOf(g), ProcessInput(cfg, g, c), |cfg.colRefs|)
  }

  function FixedUpdate(cfg: Config, g: Game): (g': Game)
    requires CoreOk(cfg, g.core)
    ensures CoreOk(cfg, g'.core)
  {
    if g.inGame then g.(core := WithInputs(cfg, g, Ticked(cfg, g.core))) else g
  }

  /** `Copy`: everything but the player number, the running state and the references. */
  function Copy(g: Game, other: Game): Game {
    g.(core := other.core, input := other.input, otherInput := other.otherInput)
  }

  /** The checksum: the positions and velocities of the two players and the ball, read as integers. */
  function CheckSum(cfg: Config, c: Core, bits: real -> int): int
    requires CoreOk(cfg, c)
  {
    var b, r, ball := c.bodies[cfg.blueBody], c.bodies[cfg.redBody], c.bodies[cfg.ballBody];
    bits(b.position.x) + bits(b.position.y) + bits(b.velocity.x) + bits(b.velocity.y)
    + bits(r.position.x) + bits(r.position.y) + bits(r.velocity.x) + bits(r.velocity.y)
    + bits(ball.position.x) + bits(ball.position.y) + bits(ball.velocity.x) + bits(ball.velocity.y)
  }
}
