/** The game that `Setup` creates (common/src/Game.cpp), as a value: it meets what the other results ask for,
    so they hold in every match. */
module MatchStart {
  import opened Inputs
  import opened Geometry
  import opened PeerSpec
  import opened Bodies
  import opened GameSpec
  import opened GameLaws
  import opened SessionSpec
  import opened Triggers
  import opened HeadShot
  import opened Lockstep

  // The world starts with this many bodies and colliders; unused ones are disabled and not attached.
  const INIT_SIZE := 100

  const GROUND_SIZE := Vec(WINDOW_WIDTH / 7.0, WINDOW_HEIGHT / 5.0)
  const GOAL_SIZE := Vec(60.0, WINDOW_HEIGHT / 3.0)
  const PLAYER_RADIUS := 50.0

  datatype BallType = FOOTBALL | BASKETBALL | BASEBALL | VOLLEYBALL | TENNISBALL {
    function Mass(): real { if VOLLEYBALL? || TENNISBALL? then 0.5 else 1.0 }

    function Restitution(): real {
      match this
      case FOOTBALL => 1.5
      case VOLLEYBALL => 2.5
      case BASKETBALL => 1.9
      case TENNISBALL => 2.95
      case BASEBALL => 1.0
    }

    function Radius(): real {
      match this
      case FOOTBALL => 30.0
      case VOLLEYBALL => 30.0
      case BASKETBALL => 40.0
      case TENNISBALL => 20.0
      case BASEBALL => 20.0
    }
  }

  const UNUSED_BODY := Body(ZERO, ZERO, -1.0, DYNAMIC, ZERO)
  const UNUSED_COLLIDER := Collider(CircleShape(Circle(ZERO, 1.0)), 0, ZERO, 1.0, false, false)

  function DynamicBody(x: real, y: real, mass: real): Body { Body(Vec(x, y), ZERO, mass, DYNAMIC, ZERO) }

  function StaticBody(x: real, y: real): Body { Body(Vec(x, y), ZERO, 1.0, STATIC, ZERO) }

  function Box(x0: real, y0: real, x1: real, y1: real): Shape { RectShape(Rect(Vec(x0, y0), Vec(x1, y1))) }

  function Ball(x: real, radius: real): Shape { CircleShape(Circle(Vec(x, 0.0), radius)) }

  function Solid(shape: Shape, body: nat, at: Body, restitution: real): Collider {
    Collider(shape, body, at.position, restitution, false, true)
  }

  function Trigger(shape: Shape, body: nat, position: Vec, restitution: real): Collider {
    Collider(shape, body, position, restitution, true, true)
  }

  /** In the order of creation: ball, ground, roof, left and right wall, left and right goal, players. */
  function StartBodies(ball: BallType): seq<Body> {
    [DynamicBody(WINDOW_WIDTH * 0.5, WINDOW_HEIGHT * 0.5, ball.Mass()),
     StaticBody(WINDOW_WIDTH * 0.5, WINDOW_HEIGHT - GROUND_SIZE.y),
     StaticBody(WINDOW_WIDTH * 0.5, 0.0),
     StaticBody(0.0, WINDOW_HEIGHT * 0.5),
     StaticBody(WINDOW_WIDTH, WINDOW_HEIGHT * 0.5),
     StaticBody(0.0, WINDOW_HEIGHT - GROUND_SIZE.y - GOAL_SIZE.y),
     StaticBody(WINDOW_WIDTH, WINDOW_HEIGHT - GROUND_SIZE.y - GOAL_SIZE.y),
     DynamicBody(WINDOW_WIDTH * 0.33, WINDOW_HEIGHT * 0.66, 1.0),
     DynamicBody(WINDOW_WIDTH - WINDOW_WIDTH * 0.33, WINDOW_HEIGHT * 0.66, 1.0)]
  }

  /** The same order; a goal has its roof and its trigger, a player its body and its feet. */
  function StartColliders(ball: BallType): seq<Collider> {
    var bs := StartBodies(ball);
    var wall := Box(0.0, -WINDOW_HEIGHT * 0.5, 0.0, WINDOW_HEIGHT * 0.5);
    var goalRoof := Box(-GOAL_SIZE.x, 0.0, GOAL_SIZE.x, GOAL_SIZE.y / 10.0);
    var goal := Box(0.0, 0.0, GOAL_SIZE.x / 10.0, GOAL_SIZE.y);
    [Solid(Ball(0.0, ball.Radius()), 0, bs[0], ball.Restitution()),
     Solid(Box(-WINDOW_WIDTH * 0.5, 0.0, WINDOW_WIDTH * 0.5, GROUND_SIZE.y), 1, bs[1], 0.0),
     Solid(Box(-WINDOW_WIDTH * 0.5, 0.0, WINDOW_WIDTH * 0.5, 0.0), 2, bs[2], 0.0),
     Solid(wall, 3, bs[3], 0.0),
     Solid(wall, 4, bs[4], 0.0),
     Solid(goalRoof, 5, bs[5], 0.0),
     Trigger(goal, 5, bs[5].position, 0.0),
     Solid(goalRoof, 6, bs[6], 0.0),
     Trigger(goal, 6, bs[6].position, 0.0),
     Solid(Ball(0.0, PLAYER_RADIUS), 7, bs[7], 0.0),
     Trigger(Ball(PLAYER_RADIUS * 2.0, PLAYER_RADIUS * 0.5), 7, ZERO, 1.0),
     Solid(Ball(0.0, PLAYER_RADIUS), 8, bs[8], 0.0),
     Trigger(Ball(-PLAYER_RADIUS * 2.0, PLAYER_RADIUS * 0.5), 8, ZERO, 1.0)]
  }

  function Start(ball: BallType): Core {
    Core(StartBodies(ball) + seq(INIT_SIZE - 9, _ => UNUSED_BODY), StartColliders(ball) + seq(INIT_SIZE - 13, _ => UNUSED_COLLIDER), {},
      false, 1.0, false, 0, false, 1.0, false, 0, [])
  }

  /** The references that `Setup` keeps; `length` is the length of vectors. */
  function References(length: Vec -> real): Config {
    Config(1, 7, 9, 10, 8, 11, 12, 0, 0, 6, 8, [0, 1, 2, 3, 4, 5, 6, 7, 8, 9, 10, 11, 12], length)
  }

  lemma StartProper(ball: BallType)
    ensures ProperShapes(Start(ball))
  {
    forall i | 0 <= i < |Start(ball).colliders| && Start(ball).colliders[i].isAttached
      ensures ProperShape(Start(ball).colliders[i].shape)
    {
      assert Start(ball).colliders[i] in StartColliders(ball);
    }
  }

  // The bodies of the colliders.
  const OWNERS := [0, 1, 2, 3, 4, 5, 5, 6, 6, 7, 7, 8, 8]

  lemma StartOwners(ball: BallType)
    ensures |StartColliders(ball)| == |OWNERS| && forall i :: 0 <= i < |OWNERS| ==> StartColliders(ball)[i].body == OWNERS[i]
  {
    hide StartBodies;
  }

  lemma StartMasses(ball: BallType)
    ensures |StartBodies(ball)| == 9 && forall k :: 0 <= k < 9 ==> StartBodies(ball)[k].mass > 0.0
  {
  }

  lemma StartInPlace(ball: BallType, length: Vec -> real)
    ensures CoreOk(References(length), Start(ball))
  {
    hide StartColliders, StartBodies;
    StartOwners(ball);
    StartMasses(ball);
    var c := Start(ball);
    assert forall i :: 0 <= i < |c.bodies| ==> c.bodies[i] == if i < 9 then StartBodies(ball)[i] else UNUSED_BODY;
    assert forall i :: 0 <= i < |c.colliders| ==>
        c.colliders[i] == if i < 13 then StartColliders(ball)[i] else UNUSED_COLLIDER;
  }

  /** A match starts as all results about matches ask for it. */
  lemma StartIsOk(ball: BallType, length: Vec -> real)
    ensures CoreOk(References(length), Start(ball)) && ProperShapes(Start(ball)) && NewMatch(Start(ball))
    ensures Distinct(References(length)) && ThreeBodies(References(length))
  {
    hide CoreOk, ProperShapes;
    StartProper(ball);
    StartInPlace(ball, length);
  }

  // ----- every match -----

  /** A state of a match: what never changes is as `Setup` left it. */
  predicate InMatch(ball: BallType, c: Core) { SetupOf(c) == SetupOf(Start(ball)) }

  lemma StartsInMatch(ball: BallType)
    ensures InMatch(ball, Start(ball))
  {
  }

  lemma InMatchIsOk(ball: BallType, length: Vec -> real, c: Core)
    requires InMatch(ball, c)
    ensures CoreOk(References(length), c) && ProperShapes(c)
    ensures |c.colliders| == INIT_SIZE && forall i :: 0 <= i < |c.colliders| ==> c.colliders[i].body == Start(ball).colliders[i].body
  {
    hide CoreOk, SetupOf;
    StartIsOk(ball, length);
    SameSetup(References(length), Start(ball), c);
  }

  lemma FrameStaysInMatch(ball: BallType, length: Vec -> real, g: Game, blue: Input, red: Input)
    requires InMatch(ball, g.core) && CoreOk(References(length), g.core)
    ensures InMatch(ball, PlayInputs(References(length), g, blue, red).core)
  {
    hide SetupOf, CoreOk, Start;
  }

  /** Whatever is shown, confirmed and rolled back. */
  lemma {:induction false} StaysInMatch(ball: BallType, length: Vec -> real, s: Games, moves: seq<Move>)
    requires GamesOk(References(length), s) && InMatch(ball, s.shown.core) && InMatch(ball, s.confirmed.core)
    ensures var s' := After(References(length), s, moves);
            InMatch(ball, s'.shown.core) && InMatch(ball, s'.confirmed.core)
    decreases |moves|
  {
    hide InMatch, CoreOk, PlayInputs, References;
    if moves != [] {
      var rest := moves[..|moves| - 1];
      StaysInMatch(ball, length, s, rest);
      var before := After(References(length), s, rest);
      match moves[|moves| - 1] {
        case Show(blue, red) => FrameStaysInMatch(ball, length, before.shown, blue, red);
        case Confirm(blue, red) => FrameStaysInMatch(ball, length, before.confirmed, blue, red);
        case RollBack =>
      }
    }
  }

  /** Both games of a peer at the start of a match. */
  function NewGames(ball: BallType, nbr: int): Games {
    var g := Game(Start(ball), nbr, NO_INPUT, NO_INPUT, true);
    Games(g, g)
  }

  /** In the next frame, the tree does not miss an overlap of two colliders. */
  ghost predicate OverlapFound(cfg: Config, c: Core, i: nat, j: nat, capacity: nat, maxDepth: nat)
    requires CoreOk(cfg, c)
  {
    var placed := PlaceColliders(cfg, UpdateBodies(cfg, c, FIXED_DELTA_TIME));
    Attached(placed, i) && Attached(placed, j) && Overlap(placed, i, j) ==>
      Compared(BuildTree(Entries(placed.colliders, |placed.colliders|), capacity, maxDepth), i, j)
  }

  lemma OverlapsFound(ball: BallType, length: Vec -> real, c: Core, i: nat, j: nat, capacity: nat, maxDepth: nat)
    requires i != j && CoreOk(References(length), c) && InMatch(ball, c)
    ensures OverlapFound(References(length), c, i, j, capacity, maxDepth)
  {
    hide Attached, Compared, References, CoreOk, InMatch, ProperShapes;
    var cfg := References(length);
    UpdatedInMatch(ball, cfg, c);
    InMatchIsOk(ball, length, UpdateBodies(cfg, c, FIXED_DELTA_TIME));
    BroadPhaseIsExact(cfg, UpdateBodies(cfg, c, FIXED_DELTA_TIME), i, j, capacity, maxDepth);
  }

  /** In every match, whatever is shown, confirmed and rolled back: the books of both games are in order,
      and no overlapping pair of colliders is missed, for any capacity and depth of the tree. */
  lemma EveryMatch(ball: BallType, length: Vec -> real, nbr: int, moves: seq<Move>, i: nat, j: nat, capacity: nat, maxDepth: nat)
    requires i != j
    ensures GamesOk(References(length), NewGames(ball, nbr))
    ensures var cfg, s := References(length), After(References(length), NewGames(ball, nbr), moves);
            && Bookkeeping(cfg, s.shown.core) && Alternating(s.shown.core.events)
            && Bookkeeping(cfg, s.confirmed.core) && Alternating(s.confirmed.core.events)
            && OverlapFound(cfg, s.shown.core, i, j, capacity, maxDepth)
            && OverlapFound(cfg, s.confirmed.core, i, j, capacity, maxDepth)
  {
    hide Bookkeeping, Alternating, Start, References, CoreOk, InMatch, OverlapFound;
    StartIsOk(ball, length);
    StartsInMatch(ball);
    TriggersOverMatch(References(length), NewGames(ball, nbr), moves);
    StaysInMatch(ball, length, NewGames(ball, nbr), moves);
    var s := After(References(length), NewGames(ball, nbr), moves);
    OverlapsFound(ball, length, s.shown.core, i, j, capacity, maxDepth);
    OverlapsFound(ball, length, s.confirmed.core, i, j, capacity, maxDepth);
  }

  lemma UpdatedInMatch(ball: BallType, cfg: Config, c: Core)
    requires CoreOk(cfg, c) && InMatch(ball, c)
    ensures InMatch(ball, UpdateBodies(cfg, c, FIXED_DELTA_TIME))
  {
    hide SetupOf, Start;
  }

  /** In every frame of a match each player's body takes two turns and the ball falls once. */
  lemma FrameInMatch(ball: BallType, length: Vec -> real, blue: Input, red: Input, c: Core)
    requires InMatch(ball, c)
    ensures var cfg := References(length);
            && CoreOk(cfg, c)
            && var c' := AfterInputs(cfg, blue, red, c, |cfg.colRefs|);
            c' == c.(bodies := AfterTurns(cfg, blue, red, c, 2, 2, 1))
  {
    hide AfterInputs, AfterTurns, InMatch;
    var cfg := References(length);
    InMatchIsOk(ball, length, c);
    FrameTurns(cfg, blue, red, c, |cfg.colRefs|);
    TurnsInMatch(ball, length, c);
  }

  lemma TurnsInMatch(ball: BallType, length: Vec -> real, c: Core)
    requires |c.colliders| == INIT_SIZE && forall i :: 0 <= i < |c.colliders| ==> c.colliders[i].body == Start(ball).colliders[i].body
    ensures var cfg := References(length);
            && Turns(cfg, c.colliders, cfg.blueBody, 13) == 2 && Turns(cfg, c.colliders, cfg.redBody, 13) == 2
            && Turns(cfg, c.colliders, cfg.ballBody, 13) == 1
  {
    hide StartColliders, StartBodies, Owned;
    var cfg := References(length);
    StartOwners(ball);
    TurnsOfOwner(cfg, c.colliders, cfg.blueBody, 13);
    TurnsOfOwner(cfg, c.colliders, cfg.redBody, 13);
    TurnsOfOwner(cfg, c.colliders, cfg.ballBody, 13);
    OwnedInAll(cfg.blueBody);
    OwnedInAll(cfg.redBody);
    OwnedInAll(cfg.ballBody);
  }

  function Owned(body: nat, n: nat): nat
    requires n <= |OWNERS|
  {
    if n == 0 then 0 else Owned(body, n - 1) + if OWNERS[n - 1] == body then 1 else 0
  }

  lemma OwnedInAll(body: nat)
    ensures Owned(body, 13) == if body < 5 then 1 else if body < 9 then 2 else 0
  {
    assert Owned(body, 1) == if body < 1 then 1 else 0;
    assert Owned(body, 2) == if body < 2 then 1 else 0;
    assert Owned(body, 4) == if body < 4 then 1 else 0;
    assert Owned(body, 6) == if body < 6 then 1 else 0;
    assert Owned(body, 8) == if body < 5 then 1 else if body == 5 then 2 else if body == 6 then 1 else 0;
    assert Owned(body, 10) == if body < 5 then 1 else if body < 7 then 2 else if body == 7 then 1 else 0;
    assert Owned(body, 12) == if body < 5 then 1 else if body < 8 then 2 else if body == 8 then 1 else 0;
  }

  lemma {:induction false} TurnsOfOwner(cfg: Config, colliders: seq<Collider>, body: nat, n: nat)
    requires n <= 13 == |cfg.colRefs| && forall k :: 0 <= k < 13 ==> cfg.colRefs[k] == k
    requires |colliders| >= 13 && forall i :: 0 <= i < 13 ==> colliders[i].body == OWNERS[i]
    ensures Turns(cfg, colliders, body, n) == Owned(body, n)
  {
    if n > 0 {
      TurnsOfOwner(cfg, colliders, body, n - 1);
    }
  }

  /** Two peers that start a match and play on time play one game of Head Shot. */
  lemma MatchAgrees(ball: BallType, length: Vec -> real, bits: real -> int, guard: Guard, actions: seq<Action>)
    requires guard.AtCurrent? || PlayedOnTime(HeadShotSim(References(length), Start(ball), bits), guard, actions)
    ensures CoreOk(References(length), Start(ball))
    ensures PlaysHeadShot(References(length), Start(ball),
              Run(HeadShotSim(References(length), Start(ball), bits), guard, actions))
  {
    hide PlayedOnTime, PlaysHeadShot, Start, References, HeadShotSim, CoreOk;
    StartIsOk(ball, length);
    if guard.AtCurrent? {
      HeadShotWithStrictGuard(References(length), Start(ball), bits, actions);
    } else {
      HeadShotPeersAgree(References(length), Start(ball), bits, guard, actions);
    }
  }

  /** In lockstep, with nothing lost, two peers confirm the whole of a match but its last frames, for all inputs. */
  lemma MatchConfirms(ball: BallType, length: Vec -> real, bits: real -> int, guard: Guard,
                      blue: seq<Input>, red: seq<Input>, n: nat)
    requires n <= |blue| && n <= |red| && n <= GAME_FRAMES
    ensures CoreOk(References(length), Start(ball))
    ensures var sim := HeadShotSim(References(length), Start(ball), bits);
            var s := Run(sim, guard, Schedule(sim, guard, blue, red, n));
            && PlaysHeadShot(References(length), Start(ball), s)
            && s.blue == blue[..n] && s.red == red[..n]
            && s.master.rb.frameToConfirm == (if n < 1 then 0 else n - 1)
            && s.client.rb.frameToConfirm == (if n < 2 then 0 else n - 2)
  {
    hide PlayedOnTime, PlaysHeadShot, Start, References, HeadShotSim, CoreOk, Run, Schedule;
    StartIsOk(ball, length);
    var sim := HeadShotSim(References(length), Start(ball), bits);
    HeadShotSymmetric(References(length), Start(ball), bits);
    LockstepConfirms(sim, guard, blue, red, n);
    MatchAgrees(ball, length, bits, guard, Schedule(sim, guard, blue, red, n));
  }
}
