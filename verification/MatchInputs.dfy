/** A whole frame of a match, from the inputs to the forces, the timers and the checksum. */
module MatchInputs {
  import opened Inputs
  import opened Geometry
  import opened Bodies
  import opened ContactSpec
  import opened ContactLaws
  import opened QuadTreeSpec
  import opened GameSpec
  import opened GameLaws
  import opened GameContacts
  import opened Traversal
  import opened MatchStart
  import opened MatchFrames

  // ----- what the traversal does not touch -----

  lemma FinishKeepsForces(k: Contact)
    requires Massive(k)
    ensures Finish(k).body0.force == k.body0.force && Finish(k).body1.force == k.body1.force && Massive(Finish(k))
  {
    hide ResolveVelocity, ResolveInterpenetration;
    KeptByPasses(MixRestitution(k));
    KeptByPasses(ResolveVelocity(MixRestitution(k)));
  }

  lemma ResolveKeepsForces(length: Vec -> real, k: Contact)
    requires Massive(k)
    ensures var r, exchanged := Resolve(length, k), k.shape0.RectShape? && k.shape1.CircleShape?;
            && r.body0.force == (if exchanged then k.body1 else k.body0).force
            && r.body1.force == (if exchanged then k.body0 else k.body1).force
  {
    hide Finish, Delta;
    if k.shape0.RectShape? && k.shape1.CircleShape? {
      FinishKeepsForces(Measure(length, Swap(k)));
      FinishKeepsForces(Finish(Measure(length, Swap(k))));
    } else {
      FinishKeepsForces(Measure(length, k));
    }
  }

  /** The kick timers and all forces are the same. */
  predicate SameForces(c: Core, c': Core) {
    && c'.blueKickTime == c.blueKickTime && c'.redKickTime == c.redKickTime
    && |c'.bodies| == |c.bodies| && forall k :: 0 <= k < |c.bodies| ==> c'.bodies[k].force == c.bodies[k].force
  }

  lemma ContactKeepsForces(cfg: Config, c: Core, i: nat, j: nat)
    requires CoreOk(cfg, c) && Collidable(c, i, j)
    ensures SameForces(c, ResolveContact(cfg, c, i, j))
  {
    hide Resolve, SetupOf, CoreOk, ResolveContact;
    WrittenBack(cfg, c, i, j);
    ResolveKeepsForces(cfg.length, ContactOf(c, i, j));
  }

  lemma ResetKeepsForces(cfg: Config, c: Core)
    requires CoreOk(cfg, c)
    ensures SameForces(c, ResetPositions(cfg, c))
  {
    hide SetupOf;
  }

  lemma ScoreKeepsForces(cfg: Config, c: Core, i: nat, j: nat)
    requires CoreOk(cfg, c)
    ensures SameForces(c, ScoreLeft(cfg, c, i, j)) && SameForces(c, ScoreRight(cfg, c, i, j))
  {
    hide SetupOf, AllInPlace, ResetPositions;
    ResetKeepsForces(cfg, c.(redScore := c.redScore + 1));
    ResetKeepsForces(cfg, c.(blueScore := c.blueScore + 1));
  }

  lemma TriggerKeepsForces(cfg: Config, c: Core, i: nat, j: nat)
    requires CoreOk(cfg, c)
    ensures SameForces(c, OnTriggerEnter(cfg, c, i, j)) && SameForces(c, OnTriggerExit(cfg, c, i, j))
  {
    hide SetupOf, AllInPlace, ScoreLeft, ScoreRight;
    var allowed := AllowKick(cfg, c, i, j);
    ScoreKeepsForces(cfg, allowed, i, j);
    ScoreKeepsForces(cfg, ScoreLeft(cfg, allowed, i, j), i, j);
  }

  lemma GroundKeepsForces(cfg: Config, c: Core, i: nat, j: nat)
    ensures SameForces(c, OnCollisionEnter(cfg, c, i, j))
  {
  }

  lemma VisitKeepsForces(cfg: Config, c: Core, i: nat, j: nat)
    requires CoreOk(cfg, c) && Attached(c, i) && Attached(c, j)
    ensures SameForces(c, VisitPair(cfg, c, i, j))
  {
    hide SetupOf, AllInPlace, Overlap, ResolveContact, OnTriggerEnter, OnTriggerExit, OnCollisionEnter;
    OverlapDefined(cfg, c, i, j);
    TriggerKeepsForces(cfg, c, i, j);
    if c.colliders[i].body != c.colliders[j].body {
      ContactKeepsForces(cfg, c, i, j);
      GroundKeepsForces(cfg, ResolveContact(cfg, c, i, j), i, j);
    }
  }

  lemma {:induction false} TraversalKeepsForces(cfg: Config, c: Core, ps: seq<(nat, nat)>)
    requires CoreOk(cfg, c) && PairsOk(c, ps)
    ensures SameForces(c, VisitAll(cfg, c, ps))
    decreases |ps|
  {
    hide VisitPair, SetupOf, CoreOk;
    if ps != [] {
      var c' := VisitPair(cfg, c, ps[0].0, ps[0].1);
      VisitKeepsForces(cfg, c, ps[0].0, ps[0].1);
      StillAttached(cfg, c, c', ps[1..]);
      TraversalKeepsForces(cfg, c', ps[1..]);
    }
  }

  lemma UpdateClearsForces(cfg: Config, c: Core)
    requires CoreOk(cfg, c)
    ensures var c' := UpdateBodies(cfg, c, FIXED_DELTA_TIME);
            && c' == c.(bodies := c'.bodies) && |c'.bodies| == |c.bodies|
            && forall k :: 0 <= k < |c.bodies| && c.bodies[k].IsEnabled() && c.bodies[k].kind != STATIC ==> c'.bodies[k].force == ZERO
  {
    hide SetupOf;
  }

  /** After the world update of a frame no moving body has a force left, and a kick timer is as before. */
  lemma WorldClearsForces(cfg: Config, c: Core)
    requires CoreOk(cfg, c)
    ensures var c' := WorldUpdate(cfg, c, FIXED_DELTA_TIME);
            && c'.blueKickTime == c.blueKickTime && c'.redKickTime == c.redKickTime && |c'.bodies| == |c.bodies|
            && forall k :: 0 <= k < |c.bodies| && c.bodies[k].IsEnabled() && c.bodies[k].kind != STATIC ==> c'.bodies[k].force == ZERO
  {
    hide SetupOf, CoreOk, UpdateBodies, VisitLeaves, TreeOf, PairsIn;
    var placed := WorldPlaced(cfg, c);
    UpdateClearsForces(cfg, c);
    LeavesOfTreeOk(cfg, placed);
    VisitLeavesIs(cfg, placed, Leaves(TreeOf(cfg, placed)));
    TraversalKeepsForces(cfg, placed, PairsIn(Leaves(TreeOf(cfg, placed))));
  }

  // ----- the frame -----

  /** A frame is the same whichever player the game calls its own: the world and the timers, both inputs, and the loop
      over the colliders with each player's own input. */
  lemma FrameIs(cfg: Config, g: Game, blue: Input, red: Input)
    requires CoreOk(cfg, g.core) && (g.playerNbr == 0 || g.playerNbr == 1)
    ensures PlayInputs(cfg, g, blue, red).core ==
            if !g.inGame then g.core
            else AfterInputs(cfg, blue, red, RedInput(cfg, BlueInput(cfg, Ticked(cfg, g.core), blue), red), |cfg.colRefs|)
  {
    hide SetupOf, AfterInputs, BlueInput, RedInput, Ticked;
    InputsCommute(cfg, Ticked(cfg, g.core), blue, red);
  }

  /** Does the blue player kick in the next frame? */
  predicate BlueKicks(cfg: Config, c: Core, blue: Input)
    requires CoreOk(cfg, c)
  {
    Kicks(blue, Ticked(cfg, c).canBlueKick, Ticked(cfg, c).blueKickTime)
  }

  predicate RedKicks(cfg: Config, c: Core, red: Input)
    requires CoreOk(cfg, c)
  {
    Kicks(red, Ticked(cfg, c).canRedKick, Ticked(cfg, c).redKickTime)
  }

  /** A player's body at the end of a frame, given the one after the world update. */
  predicate PlayerMoved(w: Body, b: Body, i: Input, grounded: bool) {
    && b.force == WalkAndJump(i, grounded).Plus(Vec(0.0, 2.0 * PLAYER_GRAVITY))
    && b.velocity == Slowed(w.velocity, i, grounded && !Pressed(i, JUMP)) && b.position == w.position
  }

  /** The ball's. */
  predicate BallMoved(w: Body, b: Body, blueKicks: bool, redKicks: bool) {
    && b.force == When(blueKicks, Vec(SHOOT_FORCE, -SHOOT_FORCE)).Plus(When(redKicks, Vec(-SHOOT_FORCE, -SHOOT_FORCE)))
                  .Plus(Vec(0.0, BALL_GRAVITY))
    && b.velocity == w.velocity && b.position == w.position
  }

  /** The forces on ball and players at the end of a frame are exactly those of the inputs and of gravity; each player's
      own input decides whether it is slowed down and whether it leaves the ground; nothing else happens after the
      world update. */
  lemma FrameForces(ball: BallType, length: Vec -> real, g: Game, blue: Input, red: Input)
    requires InMatch(ball, g.core) && g.inGame && (g.playerNbr == 0 || g.playerNbr == 1)
    ensures var cfg := References(length);
            && CoreOk(cfg, g.core)
            && var w, c' := Ticked(cfg, g.core), PlayInputs(cfg, g, blue, red).core;
            && |c'.bodies| == |w.bodies| == INIT_SIZE
            && PlayerMoved(w.bodies[7], c'.bodies[7], blue, w.blueGrounded)
            && PlayerMoved(w.bodies[8], c'.bodies[8], red, w.redGrounded)
            && BallMoved(w.bodies[0], c'.bodies[0], BlueKicks(cfg, g.core, blue), RedKicks(cfg, g.core, red))
            && (forall k :: 0 <= k < INIT_SIZE && k !in {0, 7, 8} ==> c'.bodies[k] == w.bodies[k])
            && c'.blueGrounded == (w.blueGrounded && !Pressed(blue, JUMP)) && c'.redGrounded == (w.redGrounded && !Pressed(red, JUMP))
  {
    hide SetupOf, CoreOk, InMatch, BlueInput, RedInput, AfterInputs, WalkAndJump, Kicks, Ticked, Moved, Start, PlayInputs,
      Slowed, Pressed;
    var cfg := References(length);
    InMatchIsOk(ball, length, g.core);
    FrameIs(cfg, g, blue, red);
    var w := Ticked(cfg, g.core);
    TickedHasNoForces(ball, length, g.core);
    BlueInputIs(cfg, w, blue);
    var b := BlueInput(cfg, w, blue);
    RedInputIs(cfg, b, red);
    var r := RedInput(cfg, b, red);
    StaysThroughInputs(ball, cfg, w, blue, red);
    FrameInMatch(ball, length, blue, red, r);
    TwoTurns(r.bodies[7], blue, r.blueGrounded);
    TwoTurns(r.bodies[8], red, r.redGrounded);
  }

  lemma StaysThroughInputs(ball: BallType, cfg: Config, w: Core, blue: Input, red: Input)
    requires CoreOk(cfg, w) && InMatch(ball, w)
    ensures InMatch(ball, RedInput(cfg, BlueInput(cfg, w, blue), red))
  {
    hide SetupOf, CoreOk, Start;
  }

  lemma TickedHasNoForces(ball: BallType, length: Vec -> real, c: Core)
    requires InMatch(ball, c)
    ensures var cfg := References(length);
            && CoreOk(cfg, c) && InMatch(ball, Ticked(cfg, c))
            && var w := Ticked(cfg, c);
            && |w.bodies| == INIT_SIZE && (forall k :: k in {0, 7, 8} ==> w.bodies[k].force == ZERO)
            && w.blueKickTime == c.blueKickTime + FIXED_DELTA_TIME && w.redKickTime == c.redKickTime + FIXED_DELTA_TIME
  {
    hide SetupOf, CoreOk, Start, WorldUpdate;
    var cfg := References(length);
    InMatchIsOk(ball, length, c);
    WorldClearsForces(cfg, c);
    MovingBodies(ball, length, c);
  }

  lemma MovingBodies(ball: BallType, length: Vec -> real, c: Core)
    requires InMatch(ball, c)
    ensures |c.bodies| == INIT_SIZE
    ensures forall k :: k in {0, 7, 8} ==> c.bodies[k].IsEnabled() && c.bodies[k].kind == DYNAMIC
  {
    hide StartColliders, SetupOf;
    SameSetup(References(length), Start(ball), c);
  }

  // ----- kick timers -----

  /** A kick timer starts again with a kick, and runs on otherwise. */
  lemma KickTimers(ball: BallType, length: Vec -> real, g: Game, blue: Input, red: Input)
    requires InMatch(ball, g.core) && g.inGame && (g.playerNbr == 0 || g.playerNbr == 1)
    ensures var cfg, c := References(length), g.core;
            && CoreOk(cfg, c)
            && var c' := PlayInputs(cfg, g, blue, red).core;
            && InMatch(ball, c')
            && c'.blueKickTime == (if BlueKicks(cfg, c, blue) then 0.0 else c.blueKickTime + FIXED_DELTA_TIME)
            && c'.redKickTime == (if RedKicks(cfg, c, red) then 0.0 else c.redKickTime + FIXED_DELTA_TIME)
  {
    hide SetupOf, CoreOk, InMatch, BlueInput, RedInput, AfterInputs, WalkAndJump, Kicks, Ticked, Moved, Start, PlayInputs, Push;
    var cfg := References(length);
    InMatchIsOk(ball, length, g.core);
    FrameStaysInMatch(ball, length, g, blue, red);
    FrameIs(cfg, g, blue, red);
    var w := Ticked(cfg, g.core);
    TickedHasNoForces(ball, length, g.core);
    BlueInputIs(cfg, w, blue);
    RedInputIs(cfg, BlueInput(cfg, w, blue), red);
    StaysThroughInputs(ball, cfg, w, blue, red);
    FrameInMatch(ball, length, blue, red, RedInput(cfg, BlueInput(cfg, w, blue), red));
  }

  /** Without a kick key the timer counts the frames; with one, it is never ahead of them. */
  lemma {:induction false} TimerCountsFrames(ball: BallType, length: Vec -> real, g: Game, inputs: seq<(Input, Input)>)
    requires InMatch(ball, g.core) && g.inGame && (g.playerNbr == 0 || g.playerNbr == 1)
    ensures var cfg := References(length);
            && CoreOk(cfg, g.core)
            && var c := PlayAll(cfg, g, inputs).core;
            && InMatch(ball, c) && (g.core.blueKickTime >= 0.0 ==> c.blueKickTime >= 0.0)
            && (g.core.blueKickTime >= 0.0 ==> c.blueKickTime <= g.core.blueKickTime + |inputs| as real * FIXED_DELTA_TIME)
            && ((forall k :: 0 <= k < |inputs| ==> !Pressed(inputs[k].0, KICK)) ==>
                  c.blueKickTime == g.core.blueKickTime + |inputs| as real * FIXED_DELTA_TIME)
    decreases |inputs|
  {
    hide SetupOf, CoreOk, InMatch, PlayInputs, Start, Ticked, References;
    InMatchIsOk(ball, length, g.core);
    if inputs != [] {
      var cfg, rest, last := References(length), inputs[..|inputs| - 1], inputs[|inputs| - 1];
      TimerCountsFrames(ball, length, g, rest);
      KickTimers(ball, length, PlayAll(cfg, g, rest), last.0, last.1);
      assert |inputs| as real * FIXED_DELTA_TIME == |rest| as real * FIXED_DELTA_TIME + FIXED_DELTA_TIME;
    }
  }

  /** Between two kicks of a player lie at least sixty frames: a second. After them the timer allows a kick again. */
  lemma OneKickASecond(ball: BallType, length: Vec -> real, g: Game, inputs: seq<(Input, Input)>, blue: Input)
    requires InMatch(ball, g.core) && g.inGame && (g.playerNbr == 0 || g.playerNbr == 1) && g.core.blueKickTime == 0.0
    ensures var cfg := References(length);
            && CoreOk(cfg, g.core)
            && var c := PlayAll(cfg, g, inputs).core;
            && CoreOk(cfg, c)
            && (BlueKicks(cfg, c, blue) ==> |inputs| + 1 >= 60)
            && (|inputs| + 1 >= 60 && (forall k :: 0 <= k < |inputs| ==> !Pressed(inputs[k].0, KICK)) ==>
                  (BlueKicks(cfg, c, blue) <==> Pressed(blue, KICK) && Ticked(cfg, c).canBlueKick))
  {
    hide SetupOf, CoreOk, InMatch, PlayInputs, Start, Ticked, PlayAll;
    TimerCountsFrames(ball, length, g, inputs);
    var c := PlayAll(References(length), g, inputs).core;
    TickedHasNoForces(ball, length, c);
    assert Ticked(References(length), c).blueKickTime == c.blueKickTime + FIXED_DELTA_TIME;
    Frames60(|inputs|, c.blueKickTime);
  }

  lemma Frames60(n: nat, time: real)
    ensures time <= n as real * FIXED_DELTA_TIME && time + FIXED_DELTA_TIME >= 1.0 ==> n + 1 >= 60
    ensures time == n as real * FIXED_DELTA_TIME && n + 1 >= 60 ==> time + FIXED_DELTA_TIME >= 1.0
  {
  }

  // ----- what the references and the checksum stand for -----

  /** The ball starts in the middle, the players on either side, each with its feet towards the other; red scores at
      the left edge and blue at the right one. */
  lemma ReferencesMean(ball: BallType, length: Vec -> real)
    ensures var cfg, s := References(length), Start(ball);
            && |s.bodies| == |s.colliders| == INIT_SIZE
            && s.colliders[cfg.ballCol].body == cfg.ballBody
            && s.colliders[cfg.blueCol].body == s.colliders[cfg.blueFeet].body == cfg.blueBody
            && s.colliders[cfg.redCol].body == s.colliders[cfg.redFeet].body == cfg.redBody
            && s.bodies[cfg.blueBody].position.x < s.bodies[cfg.ballBody].position.x < s.bodies[cfg.redBody].position.x
            && s.bodies[cfg.blueBody].position.x + s.bodies[cfg.redBody].position.x
               == 2.0 * s.bodies[cfg.ballBody].position.x == WINDOW_WIDTH
            && s.bodies[cfg.blueBody].position.y == s.bodies[cfg.redBody].position.y
            && s.bodies[s.colliders[cfg.leftGoal].body].position.x == 0.0
            && s.bodies[s.colliders[cfg.rightGoal].body].position.x == WINDOW_WIDTH
            && s.bodies[s.colliders[cfg.ground].body].position.y > s.bodies[cfg.blueBody].position.y
            && s.colliders[cfg.blueFeet].shape.CircleShape? && s.colliders[cfg.redFeet].shape.CircleShape?
            && s.colliders[cfg.blueFeet].shape.circle.center.x == -s.colliders[cfg.redFeet].shape.circle.center.x > 0.0
  {
    hide StartColliders, StartBodies;
    StartOwners(ball);
    StartMasses(ball);
    StartPlaces(ball);
    assert forall i :: 0 <= i < 13 ==> Start(ball).colliders[i] == StartColliders(ball)[i];
    assert forall i :: 0 <= i < 9 ==> Start(ball).bodies[i] == StartBodies(ball)[i];
  }

  lemma StartPlaces(ball: BallType)
    ensures |StartBodies(ball)| == 9 && |StartColliders(ball)| == 13
    ensures var bs, cs := StartBodies(ball), StartColliders(ball);
            && bs[7].position.x < bs[0].position.x < bs[8].position.x
            && bs[7].position.x + bs[8].position.x == 2.0 * bs[0].position.x == WINDOW_WIDTH
            && bs[7].position.y == bs[8].position.y && bs[1].position.y > bs[7].position.y
            && bs[5].position.x == 0.0 && bs[6].position.x == WINDOW_WIDTH
            && cs[10].shape.CircleShape? && cs[12].shape.CircleShape?
            && cs[10].shape.circle.center.x == -cs[12].shape.circle.center.x > 0.0
  {
  }

  /** What a body adds to the checksum. */
  function Bits(b: Body, bits: real -> int): int {
    bits(b.position.x) + bits(b.position.y) + bits(b.velocity.x) + bits(b.velocity.y)
  }

  /** The checksum sees position and velocity of ball and players, each on its own, and no other body. */
  lemma CheckSumSees(cfg: Config, c: Core, c': Core, k: nat, bits: real -> int)
    requires CoreOk(cfg, c) && CoreOk(cfg, c') && ThreeBodies(cfg) && k < |c.bodies|
    requires |c'.bodies| == |c.bodies| && forall l :: 0 <= l < |c.bodies| && l != k ==> c'.bodies[l] == c.bodies[l]
    ensures CheckSum(cfg, c', bits) - CheckSum(cfg, c, bits)
         == if k in {cfg.ballBody, cfg.blueBody, cfg.redBody} then Bits(c'.bodies[k], bits) - Bits(c.bodies[k], bits) else 0
  {
  }
}
