/** What the game's fixed update guarantees: it is the same on both peers, it depends only on what
    `Copy` copies, its broad phase misses nothing, and its trigger bookkeeping is a state machine. */
module GameLaws {
  import opened Inputs
  import opened Geometry
  import opened Bodies
  import opened QuadTreeSpec
  import opened GameSpec

  // ----- peer symmetry -----

  /** The same game seen by the other player. */
  function Mirror(g: Game): Game {
    g.(playerNbr := 1 - g.playerNbr, input := g.otherInput, otherInput := g.input)
  }

  lemma PushTwice(bs: seq<Body>, k: nat, f: Vec, h: Vec)
    requires k < |bs|
    ensures Push(Push(bs, k, f), k, h) == Push(bs, k, f.Plus(h))
    ensures Push(bs, k, ZERO) == bs
  {
    assert bs[k].ApplyForce(ZERO) == bs[k];
    assert bs[k].ApplyForce(f).ApplyForce(h) == bs[k].ApplyForce(f.Plus(h));
  }

  lemma PushesCommute(bs: seq<Body>, j: nat, f: Vec, k: nat, h: Vec)
    requires j < |bs| && k < |bs|
    ensures Push(Push(bs, j, f), k, h) == Push(Push(bs, k, h), j, f)
  {
    if j == k {
      PushTwice(bs, k, f, h);
      PushTwice(bs, k, h, f);
      assert f.Plus(h) == h.Plus(f);
    }
  }

  function When(b: bool, f: Vec): Vec { if b then f else ZERO }

  /** The force of a player's input on the player's own body. */
  function WalkAndJump(i: Input, grounded: bool): Vec {
    When(Pressed(i, RIGHT), Vec(WALK_SPEED, 0.0)).Plus(When(Pressed(i, LEFT), Vec(-WALK_SPEED, 0.0)))
    .Plus(When(Pressed(i, JUMP) && grounded, Vec(0.0, JUMP_SPEED)))
  }

  predicate Kicks(i: Input, canKick: bool, kickTime: real) { Pressed(i, KICK) && canKick && kickTime >= 1.0 }

  /** Three conditional pushes are one. */
  lemma ThreePushes(bs: seq<Body>, k: nat, i: Input, grounded: bool)
    requires k < |bs|
    ensures var b1 := if Pressed(i, RIGHT) then Push(bs, k, Vec(WALK_SPEED, 0.0)) else bs;
            var b2 := if Pressed(i, LEFT) then Push(b1, k, Vec(-WALK_SPEED, 0.0)) else b1;
            var b3 := if Pressed(i, JUMP) && grounded then Push(b2, k, Vec(0.0, JUMP_SPEED)) else b2;
            b3 == Push(bs, k, WalkAndJump(i, grounded))
  {
    var f1 := When(Pressed(i, RIGHT), Vec(WALK_SPEED, 0.0));
    var f2 := When(Pressed(i, LEFT), Vec(-WALK_SPEED, 0.0));
    var f3 := When(Pressed(i, JUMP) && grounded, Vec(0.0, JUMP_SPEED));
    PushTwice(bs, k, f1, f2);
    PushTwice(bs, k, f1.Plus(f2), f3);
    PushTwice(Push(bs, k, f1), k, f2, ZERO);
    PushTwice(Push(bs, k, f1.Plus(f2)), k, f3, ZERO);
  }

  lemma {:induction false} BlueInputIs(cfg: Config, c: Core, i: Input)
    requires CoreOk(cfg, c)
    ensures BlueInput(cfg, c, i) == c.(
              bodies := Push(Push(c.bodies, cfg.blueBody, WalkAndJump(i, c.blueGrounded)), cfg.ballBody,
                             When(Kicks(i, c.canBlueKick, c.blueKickTime), Vec(SHOOT_FORCE, -SHOOT_FORCE))),
              blueGrounded := c.blueGrounded && !Pressed(i, JUMP),
              blueKickTime := if Kicks(i, c.canBlueKick, c.blueKickTime) then 0.0 else c.blueKickTime)
  {
    ThreePushes(c.bodies, cfg.blueBody, i, c.blueGrounded);
    PushTwice(Push(c.bodies, cfg.blueBody, WalkAndJump(i, c.blueGrounded)), cfg.ballBody, ZERO, ZERO);
  }

  lemma {:induction false} RedInputIs(cfg: Config, c: Core, i: Input)
    requires CoreOk(cfg, c)
    ensures RedInput(cfg, c, i) == c.(
              bodies := Push(Push(c.bodies, cfg.redBody, WalkAndJump(i, c.redGrounded)), cfg.ballBody,
                             When(Kicks(i, c.canRedKick, c.redKickTime), Vec(-SHOOT_FORCE, -SHOOT_FORCE))),
              redGrounded := c.redGrounded && !Pressed(i, JUMP),
              redKickTime := if Kicks(i, c.canRedKick, c.redKickTime) then 0.0 else c.redKickTime)
  {
    hide SetupOf;
    ThreePushes(c.bodies, cfg.redBody, i, c.redGrounded);
    PushTwice(Push(c.bodies, cfg.redBody, WalkAndJump(i, c.redGrounded)), cfg.ballBody, ZERO, ZERO);
  }

  lemma FourPushes(bs: seq<Body>, b: nat, fb: Vec, r: nat, fr: Vec, ball: nat, kb: Vec, kr: Vec)
    requires b < |bs| && r < |bs| && ball < |bs|
    ensures Push(Push(Push(Push(bs, b, fb), ball, kb), r, fr), ball, kr)
         == Push(Push(Push(Push(bs, r, fr), ball, kr), b, fb), ball, kb)
  {
    PushesCommute(Push(bs, b, fb), ball, kb, r, fr);
    PushesCommute(bs, b, fb, r, fr);
    PushesCommute(Push(Push(bs, r, fr), b, fb), ball, kb, ball, kr);
    PushesCommute(Push(bs, r, fr), b, fb, ball, kr);
  }

  /** The two players' inputs commute: forces add up, and each player's flags are its own. */
  lemma {:induction false} InputsCommute(cfg: Config, c: Core, blue: Input, red: Input)
    requires CoreOk(cfg, c)
    ensures RedInput(cfg, BlueInput(cfg, c, blue), red) == BlueInput(cfg, RedInput(cfg, c, red), blue)
  {
    hide BlueInput, RedInput, Push, WalkAndJump, Pressed, SetupOf;
    BlueInputIs(cfg, c, blue);
    RedInputIs(cfg, c, red);
    RedInputIs(cfg, BlueInput(cfg, c, blue), red);
    BlueInputIs(cfg, RedInput(cfg, c, red), blue);
    FourPushes(c.bodies, cfg.blueBody, WalkAndJump(blue, c.blueGrounded), cfg.redBody, WalkAndJump(red, c.redGrounded),
      cfg.ballBody, When(Kicks(blue, c.canBlueKick, c.blueKickTime), Vec(SHOOT_FORCE, -SHOOT_FORCE)),
      When(Kicks(red, c.canRedKick, c.redKickTime), Vec(-SHOOT_FORCE, -SHOOT_FORCE)));
  }

  lemma WithInputsMirrored(cfg: Config, g: Game, c: Core)
    requires CoreOk(cfg, c) && (g.playerNbr == 0 || g.playerNbr == 1)
    ensures WithInputs(cfg, Mirror(g), c) == WithInputs(cfg, g, c)
  {
    if g.playerNbr == 0 {
      InputsCommute(cfg, c, g.input, g.otherInput);
    } else {
      InputsCommute(cfg, c, g.otherInput, g.input);
    }
    assert BlueOf(Mirror(g)) == BlueOf(g) && RedOf(Mirror(g)) == RedOf(g);
  }

  /** Peer symmetry: the fixed update commutes with looking at the game as the other player. */
  lemma {:induction false} PeerSymmetry(cfg: Config, g: Game)
    requires CoreOk(cfg, g.core) && (g.playerNbr == 0 || g.playerNbr == 1)
    ensures FixedUpdate(cfg, Mirror(g)) == Mirror(FixedUpdate(cfg, g))
  {
    WithInputsMirrored(cfg, g, Ticked(cfg, g.core));
  }

  // ----- Copy -----

  /** The game with the inputs of the two players. */
  function WithPlayers(g: Game, blue: Input, red: Input): Game {
    if g.playerNbr == 0 then g.(input := blue, otherInput := red) else g.(input := red, otherInput := blue)
  }

  function PlayInputs(cfg: Config, g: Game, blue: Input, red: Input): (g': Game)
    requires CoreOk(cfg, g.core)
    ensures CoreOk(cfg, g'.core) && g'.playerNbr == g.playerNbr && g'.inGame == g.inGame
  {
    FixedUpdate(cfg, WithPlayers(g, blue, red))
  }

  function PlayAll(cfg: Config, g: Game, inputs: seq<(Input, Input)>): (g': Game)
    requires CoreOk(cfg, g.core)
    ensures CoreOk(cfg, g'.core) && g'.playerNbr == g.playerNbr && g'.inGame == g.inGame
  {
    if inputs == [] then g
    else PlayInputs(cfg, PlayAll(cfg, g, inputs[..|inputs| - 1]), inputs[|inputs| - 1].0, inputs[|inputs| - 1].1)
  }

  /** Games with the same core stay so, whichever player each of them calls its own. */
  lemma {:induction false} PlayInputsAgree(cfg: Config, g: Game, h: Game, blue: Input, red: Input)
    requires CoreOk(cfg, g.core) && h.core == g.core && g.inGame == h.inGame
    requires (g.playerNbr == 0 || g.playerNbr == 1) && (h.playerNbr == 0 || h.playerNbr == 1)
    ensures PlayInputs(cfg, g, blue, red).core == PlayInputs(cfg, h, blue, red).core
  {
    var g' := if g.playerNbr == 0 then g.(input := blue, otherInput := red) else g.(input := red, otherInput := blue);
    var h' := if h.playerNbr == 0 then h.(input := blue, otherInput := red) else h.(input := red, otherInput := blue);
    assert h' == (if h.playerNbr == g.playerNbr then g' else Mirror(g'));
    PeerSymmetry(cfg, g');
  }

  /** After a copy the two games differ in the player they call their own and in whether they run, and in nothing
      else. */
  lemma CopyIsTheOther(g: Game, other: Game)
    ensures Copy(g, other) == other.(playerNbr := g.playerNbr, inGame := g.inGame)
    ensures g.inGame == other.inGame && g.playerNbr == other.playerNbr ==> Copy(g, other) == other
  {
  }

  /** `Copy` is sufficient: whatever the target was before, it plays every later sequence of inputs to
      the same result as the game it was copied from. */
  lemma {:induction false} CopySufficient(cfg: Config, g: Game, other: Game, inputs: seq<(Input, Input)>)
    requires CoreOk(cfg, other.core) && g.inGame == other.inGame
    requires (g.playerNbr == 0 || g.playerNbr == 1) && (other.playerNbr == 0 || other.playerNbr == 1)
    ensures PlayAll(cfg, Copy(g, other), inputs).core == PlayAll(cfg, other, inputs).core
    decreases |inputs|
  {
    if inputs != [] {
      var rest, last := inputs[..|inputs| - 1], inputs[|inputs| - 1];
      CopySufficient(cfg, g, other, rest);
      PlayInputsAgree(cfg, PlayAll(cfg, Copy(g, other), rest), PlayAll(cfg, other, rest), last.0, last.1);
    }
  }

  // ----- motion -----

  /** Newton's law for the body update: the momentum changes by force times time, the position by the new
      velocity times time, and no force is left; static and disabled bodies stay as they are. */
  lemma BodiesIntegrated(cfg: Config, c: Core, dt: real, k: nat)
    requires CoreOk(cfg, c) && k < |c.bodies|
    ensures |UpdateBodies(cfg, c, dt).bodies| == |c.bodies|
    ensures var b, b' := c.bodies[k], UpdateBodies(cfg, c, dt).bodies[k];
            if b.kind == STATIC || b.mass < 0.0 then b' == b
            else
              && b'.velocity.Minus(b.velocity).Times(b.mass) == b.force.Times(dt)
              && b'.position.Minus(b.position) == b'.velocity.Times(dt)
              && b'.force == ZERO && FixedOf(b') == FixedOf(b)
  {
    var b := c.bodies[k];
    ForceIsMassTimesAcceleration(b.velocity.x, b.force.x, b.mass, dt);
    ForceIsMassTimesAcceleration(b.velocity.y, b.force.y, b.mass, dt);
  }

  lemma ForceIsMassTimesAcceleration(v: real, f: real, m: real, dt: real)
    requires m != 0.0
    ensures (v + f / m * dt - v) * m == f * dt
  {
    var a := f / m;
    assert a * m == f;
    assert a * dt * m == a * m * dt;
  }

  /** One collider's turn in a frame: a player's sideways speed is limited, gravity is added, and without a
      walking input on the ground a tenth of the velocity is lost. */
  lemma PlayersSlowDown(b: Body, i: Input, grounded: bool)
    ensures var b' := MovePlayer(b, i, grounded);
            && -MAX_SPEED <= b'.velocity.x <= MAX_SPEED
            && b'.force == b.force.Plus(Vec(0.0, PLAYER_GRAVITY)) && b'.position == b.position
            && var limited := Vec(Clamp(b.velocity.x, -MAX_SPEED, MAX_SPEED), b.velocity.y);
               b'.velocity == if grounded && i & (LEFT | RIGHT) == 0 then limited.Times(0.9) else limited
  {
    assert i & (LEFT | RIGHT) == 0 <==> i & LEFT == 0 && i & RIGHT == 0;
  }

  /** How many of the first `n` colliders of the loop belong to the body. */
  function Turns(cfg: Config, colliders: seq<Collider>, body: nat, n: nat): nat
    requires n <= |cfg.colRefs| && forall k :: 0 <= k < |cfg.colRefs| ==> cfg.colRefs[k] < |colliders|
  {
    if n == 0 then 0
    else Turns(cfg, colliders, body, n - 1) + if colliders[cfg.colRefs[n - 1]].body == body then 1 else 0
  }

  /** A player's body after several turns. */
  function Moved(b: Body, i: Input, grounded: bool, turns: nat): Body {
    if turns == 0 then b else MovePlayer(Moved(b, i, grounded, turns - 1), i, grounded)
  }

  function Fallen(b: Body, turns: nat): Body {
    b.ApplyForce(Vec(0.0, turns as real * BALL_GRAVITY))
  }

  predicate ThreeBodies(cfg: Config) {
    cfg.ballBody != cfg.blueBody && cfg.ballBody != cfg.redBody && cfg.blueBody != cfg.redBody
  }

  /** The bodies after so many turns of the players' bodies and the ball. */
  function AfterTurns(cfg: Config, blue: Input, red: Input, c: Core, blues: nat, reds: nat, balls: nat): seq<Body>
    requires CoreOk(cfg, c)
  {
    c.bodies[cfg.blueBody := Moved(c.bodies[cfg.blueBody], blue, c.blueGrounded, blues)]
            [cfg.redBody := Moved(c.bodies[cfg.redBody], red, c.redGrounded, reds)]
            [cfg.ballBody := Fallen(c.bodies[cfg.ballBody], balls)]
  }

  /** A whole frame: each player's body takes a turn, and the ball falls, once per collider of theirs; every
      other body, the flags and all the rest stay as they are. */
  lemma {:induction false} FrameTurns(cfg: Config, blue: Input, red: Input, c: Core, n: nat)
    requires CoreOk(cfg, c) && ThreeBodies(cfg) && n <= |cfg.colRefs|
    ensures AfterInputs(cfg, blue, red, c, n)
         == c.(bodies := AfterTurns(cfg, blue, red, c, Turns(cfg, c.colliders, cfg.blueBody, n),
                           Turns(cfg, c.colliders, cfg.redBody, n), Turns(cfg, c.colliders, cfg.ballBody, n)))
  {
    hide AfterTurns, AfterInput, SetupOf, MovePlayer, Fallen;
    if n > 0 {
      FrameTurns(cfg, blue, red, c, n - 1);
      var before := AfterInputs(cfg, blue, red, c, n - 1);
      OneTurn(cfg, blue, red, before, cfg.colRefs[n - 1]);
      OneMoreTurn(cfg, blue, red, c, Turns(cfg, c.colliders, cfg.blueBody, n - 1),
        Turns(cfg, c.colliders, cfg.redBody, n - 1), Turns(cfg, c.colliders, cfg.ballBody, n - 1));
    } else {
      NoTurns(cfg, blue, red, c);
    }
  }

  lemma NoTurns(cfg: Config, blue: Input, red: Input, c: Core)
    requires CoreOk(cfg, c)
    ensures AfterTurns(cfg, blue, red, c, 0, 0, 0) == c.bodies
  {
  }

  lemma OneMoreTurn(cfg: Config, blue: Input, red: Input, c: Core, blues: nat, reds: nat, balls: nat)
    requires CoreOk(cfg, c) && ThreeBodies(cfg)
    ensures var bs := AfterTurns(cfg, blue, red, c, blues, reds, balls);
            && |bs| == |c.bodies|
            && bs[cfg.blueBody := MovePlayer(bs[cfg.blueBody], blue, c.blueGrounded)]
               == AfterTurns(cfg, blue, red, c, blues + 1, reds, balls)
            && bs[cfg.redBody := MovePlayer(bs[cfg.redBody], red, c.redGrounded)]
               == AfterTurns(cfg, blue, red, c, blues, reds + 1, balls)
            && bs[cfg.ballBody := bs[cfg.ballBody].ApplyForce(Vec(0.0, BALL_GRAVITY))]
               == AfterTurns(cfg, blue, red, c, blues, reds, balls + 1)
  {
    hide MovePlayer, Fallen, SetupOf;
    FallenOnce(c.bodies[cfg.ballBody], balls);
  }

  lemma FallenOnce(b: Body, turns: nat)
    ensures Fallen(b, turns).ApplyForce(Vec(0.0, BALL_GRAVITY)) == Fallen(b, turns + 1)
  {
  }

  lemma OneTurn(cfg: Config, blue: Input, red: Input, c: Core, col: nat)
    requires CoreOk(cfg, c) && ThreeBodies(cfg) && col < |c.colliders|
    ensures var c', k := AfterInput(cfg, blue, red, c, col), c.colliders[col].body;
            && c' == c.(bodies := c'.bodies) && |c'.bodies| == |c.bodies|
            && (k == cfg.blueBody ==> c'.bodies == c.bodies[k := MovePlayer(c.bodies[k], blue, c.blueGrounded)])
            && (k == cfg.redBody ==> c'.bodies == c.bodies[k := MovePlayer(c.bodies[k], red, c.redGrounded)])
            && (k == cfg.ballBody ==> c'.bodies == c.bodies[k := c.bodies[k].ApplyForce(Vec(0.0, BALL_GRAVITY))])
            && (k != cfg.blueBody && k != cfg.redBody && k != cfg.ballBody ==> c'.bodies == c.bodies)
  {
    hide MovePlayer, SetupOf;
  }

  /** A player's velocity at the end of a frame. */
  function Slowed(v: Vec, i: Input, grounded: bool): Vec {
    var limited := Vec(Clamp(v.x, -MAX_SPEED, MAX_SPEED), v.y);
    if grounded && i & (LEFT | RIGHT) == 0 then limited.Times(0.81) else limited
  }

  /** With its two colliders a player gets gravity and friction twice in a frame. */
  lemma TwoTurns(b: Body, i: Input, grounded: bool)
    ensures var b' := Moved(b, i, grounded, 2);
            && b'.force == b.force.Plus(Vec(0.0, 2.0 * PLAYER_GRAVITY)) && b'.position == b.position
            && b'.velocity == Slowed(b.velocity, i, grounded)
  {
    hide MovePlayer;
    var once := MovePlayer(b, i, grounded);
    PlayersSlowDown(b, i, grounded);
    PlayersSlowDown(once, i, grounded);
    assert Moved(b, i, grounded, 1) == once;
  }

  // ----- the broad phase -----

  predicate ProperShapes(c: Core) {
    forall i :: 0 <= i < |c.colliders| && c.colliders[i].isAttached ==> ProperShape(c.colliders[i].shape)
  }

  /** The traversal of the leaves compares the two colliders: they stand at two positions of a leaf. */
  ghost predicate Compared(t: Tree, i: nat, j: nat) {
    exists leaf, p, q :: leaf in Leaves(t) && leaf.Leaf? && 0 <= p < q < |leaf.entries|
                         && PairOf(leaf.entries[p].collider, leaf.entries[q].collider) == PairOf(i, j)
  }

  predicate Attached(c: Core, i: nat) { i < |c.colliders| && c.colliders[i].isAttached }

  lemma EntriesProper(c: Core, e: Entry)
    requires ProperShapes(c) && e in Entries(c.colliders, |c.colliders|)
    ensures Proper(e.aabb)
  {
    EntriesAre(c.colliders, |c.colliders|);
    BoundsProper(c.colliders[e.collider].shape, c.colliders[e.collider].bodyPosition);
  }

  /** For any node capacity and depth limit: two attached colliders whose boxes meet share a leaf. */
  lemma BoxesShareLeaf(c: Core, i: nat, j: nat, capacity: nat, maxDepth: nat)
    requires ProperShapes(c) && Attached(c, i) && Attached(c, j) && i != j
    requires RectsIntersect(GetBounds(c.colliders[i]), GetBounds(c.colliders[j]))
    ensures Compared(BuildTree(Entries(c.colliders, |c.colliders|), capacity, maxDepth), i, j)
  {
    var es := Entries(c.colliders, |c.colliders|);
    var a, b := Entry(GetBounds(c.colliders[i]), i), Entry(GetBounds(c.colliders[j]), j);
    EntriesAre(c.colliders, |c.colliders|);
    forall e | e in es ensures Proper(e.aabb) {
      EntriesProper(c, e);
    }
    RootMeetsAll(es, a);
    RootMeetsAll(es, b);
    BuiltHolds(Leaf([], RootBounds(es), 0), es, capacity, maxDepth);
    var leaf := ShareLeaf(BuildTree(es, capacity, maxDepth), es, a, b, maxDepth);
    TwoPositions(leaf.entries, a, b);
  }

  lemma TwoPositions(es: seq<Entry>, a: Entry, b: Entry)
    requires a in es && b in es && a.collider != b.collider
    ensures exists p, q :: 0 <= p < q < |es| && PairOf(es[p].collider, es[q].collider) == PairOf(a.collider, b.collider)
  {
    var p :| 0 <= p < |es| && es[p] == a;
    var q :| 0 <= q < |es| && es[q] == b;
    PairIsSymmetric(a.collider, b.collider, b.collider, a.collider);
    if p < q {
      assert PairOf(es[p].collider, es[q].collider) == PairOf(a.collider, b.collider);
    } else {
      assert PairOf(es[q].collider, es[p].collider) == PairOf(a.collider, b.collider);
    }
  }

  /** The index agrees with brute force, for any node capacity and depth limit: on the positions the tree
      was built from, the overlapping pairs that the traversal compares are exactly all overlapping pairs
      of attached colliders. */
  lemma BroadPhaseIsExact(cfg: Config, c: Core, i: nat, j: nat, capacity: nat, maxDepth: nat)
    requires CoreOk(cfg, c) && ProperShapes(c) && i != j
    ensures var placed := PlaceColliders(cfg, c);
            var t := BuildTree(Entries(placed.colliders, |placed.colliders|), capacity, maxDepth);
            && (Compared(t, i, j) ==> Attached(placed, i) && Attached(placed, j))
            && (Attached(placed, i) && Attached(placed, j) && Overlap(placed, i, j) ==> Compared(t, i, j))
  {
    var placed := PlaceColliders(cfg, c);
    var es := Entries(placed.colliders, |placed.colliders|);
    var t := BuildTree(es, capacity, maxDepth);
    SameSetup(cfg, c, placed);
    if Compared(t, i, j) {
      ComparedAreAttached(placed, i, j, capacity, maxDepth);
    } else if Attached(placed, i) && Attached(placed, j) && Overlap(placed, i, j) {
      var a, b := placed.colliders[i], placed.colliders[j];
      OverlapNeedsBounds(a.shape, a.bodyPosition, b.shape, b.bodyPosition);
      BoxesShareLeaf(placed, i, j, capacity, maxDepth);
    }
  }

  lemma ComparedAreAttached(c: Core, i: nat, j: nat, capacity: nat, maxDepth: nat)
    requires Compared(BuildTree(Entries(c.colliders, |c.colliders|), capacity, maxDepth), i, j)
    ensures Attached(c, i) && Attached(c, j)
  {
    var es := Entries(c.colliders, |c.colliders|);
    var t := BuildTree(es, capacity, maxDepth);
    var leaf, p, q :| leaf in Leaves(t) && leaf.Leaf? && 0 <= p < q < |leaf.entries|
                      && PairOf(leaf.entries[p].collider, leaf.entries[q].collider) == PairOf(i, j);
    BuiltHolds(Leaf([], RootBounds(es), 0), es, capacity, maxDepth);
    LeafEntriesIn(t, es, leaf, maxDepth);
    EntriesAre(c.colliders, |c.colliders|);
    PairIsSymmetric(leaf.entries[p].collider, leaf.entries[q].collider, i, j);
    assert leaf.entries[p] in es && leaf.entries[q] in es;
  }

  lemma {:induction false} BuiltBounded(t: Tree, es: seq<Entry>, capacity: nat, maxDepth: nat)
    requires WellFormed(t, maxDepth) && Bounded(t, capacity, maxDepth)
    ensures Bounded(BuildFrom(t, es, capacity, maxDepth), capacity, maxDepth)
    decreases |es|
  {
    if es != [] {
      BuiltBounded(t, es[..|es| - 1], capacity, maxDepth);
      InsertKeepsBounded(BuildFrom(t, es[..|es| - 1], capacity, maxDepth), es[|es| - 1], capacity, maxDepth);
    }
  }

  lemma {:induction false} BuiltNeeded(t: Tree, es: seq<Entry>, capacity: nat, maxDepth: nat)
    requires WellFormed(t, maxDepth) && t.Leaf? && t.entries == []
    ensures SplitsNeeded(BuildFrom(t, es, capacity, maxDepth), es, capacity)
    decreases |es|
  {
    if es != [] {
      var rest := es[..|es| - 1];
      BuiltNeeded(t, rest, capacity, maxDepth);
      BuiltHolds(t, rest, capacity, maxDepth);
      MoreNeeded(BuildFrom(t, rest, capacity, maxDepth), rest, es[|es| - 1], capacity, maxDepth);
      assert rest + [es[|es| - 1]] == es;
    }
  }

  /** The root is split if and only if there are more colliders than fit into a leaf. */
  lemma RootSplitExactly(es: seq<Entry>, capacity: nat, maxDepth: nat)
    ensures BuildTree(es, capacity, maxDepth).Inner? <==> |es| > capacity && 0 < maxDepth
  {
    var root := Leaf([], RootBounds(es), 0);
    BuiltHolds(root, es, capacity, maxDepth);
    BuiltBounded(root, es, capacity, maxDepth);
    BuiltNeeded(root, es, capacity, maxDepth);
    BuiltDepth(root, es, capacity, maxDepth);
    SplitExactly(BuildTree(es, capacity, maxDepth), es, capacity, maxDepth);
  }

  lemma {:induction false} BuiltDepth(t: Tree, es: seq<Entry>, capacity: nat, maxDepth: nat)
    requires WellFormed(t, maxDepth)
    ensures BuildFrom(t, es, capacity, maxDepth).depth == t.depth
    decreases |es|
  {
    if es != [] {
      BuiltDepth(t, es[..|es| - 1], capacity, maxDepth);
    }
  }

  /** A leaf holds more colliders than the capacity only at the depth limit. */
  lemma LeavesNotOverfull(es: seq<Entry>, leaf: Tree, capacity: nat, maxDepth: nat)
    requires leaf in Leaves(BuildTree(es, capacity, maxDepth))
    ensures leaf.Leaf? && (leaf.depth >= maxDepth || |leaf.entries| <= capacity)
  {
    BuiltBounded(Leaf([], RootBounds(es), 0), es, capacity, maxDepth);
    LeafBounded(BuildTree(es, capacity, maxDepth), leaf, capacity, maxDepth);
  }

  lemma BuiltSound(es: seq<Entry>, leaf: Tree, capacity: nat, maxDepth: nat)
    requires NoDuplicates(es) && forall e :: e in es ==> Proper(e.aabb)
    requires leaf in Leaves(BuildTree(es, capacity, maxDepth))
    ensures leaf.Leaf? && NoDuplicates(leaf.entries)
    ensures forall e :: e in leaf.entries <==> e in es && RectsIntersect(e.aabb, leaf.bounds)
  {
    hide RootBounds, NoDuplicates, RectsIntersect, Proper, Holds, WellFormed;
    var root := Leaf([], RootBounds(es), 0);
    if es == [] {
      assert BuildTree(es, capacity, maxDepth) == root;
    } else {
      BuiltHolds(root, es, capacity, maxDepth);
      forall e | e in es ensures RectsIntersect(e.aabb, root.bounds) && Proper(root.bounds) {
        RootMeetsAll(es, e);
      }
      assert es[0] in es;
      LeafSound(BuildTree(es, capacity, maxDepth), es, leaf, maxDepth);
    }
  }

  /** For any node capacity and depth limit, a leaf holds exactly the attached colliders whose boxes meet its
      bounds, each once. */
  lemma LeavesSound(c: Core, leaf: Tree, capacity: nat, maxDepth: nat)
    requires ProperShapes(c) && leaf in Leaves(BuildTree(Entries(c.colliders, |c.colliders|), capacity, maxDepth))
    ensures leaf.Leaf? && NoDuplicates(leaf.entries)
    ensures forall e :: e in leaf.entries <==>
              && Attached(c, e.collider) && e.aabb == GetBounds(c.colliders[e.collider])
              && RectsIntersect(e.aabb, leaf.bounds)
  {
    hide BuildTree, GetBounds, NoDuplicates, RectsIntersect, ProperShapes;
    var es := Entries(c.colliders, |c.colliders|);
    EntriesAre(c.colliders, |c.colliders|);
    forall e | e in es ensures Proper(e.aabb) {
      EntriesProper(c, e);
    }
    BuiltSound(es, leaf, capacity, maxDepth);
    assert forall e: Entry :: e in es <==> Attached(c, e.collider) && e.aabb == GetBounds(c.colliders[e.collider]);
  }
}
