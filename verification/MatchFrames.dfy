/** Every frame of a match, pair by pair: the thirteen colliders that `Setup` attaches share one leaf, so each
    pair of them is visited exactly once, and triggers, goals and the ground are decided by overlap alone. */
module MatchFrames {
  import opened Geometry
  import opened Bodies
  import opened QuadTreeSpec
  import opened GameSpec
  import opened GameLaws
  import opened Traversal
  import opened MatchStart

  // How many colliders are attached.
  const ATTACHED := 13

  lemma RoomInLeaf(t: Tree, e: Entry, capacity: nat, maxDepth: nat)
    requires t.Leaf? && WellFormed(t, maxDepth) && |t.entries| < capacity
    ensures QuadTreeSpec.Insert(t, e, capacity, maxDepth) == t.(entries := t.entries + [e])
  {
  }

  /** A tree over no more entries than fit into a leaf is one leaf with all of them. */
  lemma {:induction false} SmallTreeIsLeaf(bounds: Rect, es: seq<Entry>, capacity: nat, maxDepth: nat)
    requires |es| <= capacity
    ensures BuildFrom(Leaf([], bounds, 0), es, capacity, maxDepth) == Leaf(es, bounds, 0)
    decreases |es|
  {
    hide QuadTreeSpec.Insert, WellFormed;
    if es != [] {
      SmallTreeIsLeaf(bounds, es[..|es| - 1], capacity, maxDepth);
      RoomInLeaf(Leaf(es[..|es| - 1], bounds, 0), es[|es| - 1], capacity, maxDepth);
      assert es == es[..|es| - 1] + [es[|es| - 1]];
    }
  }

  lemma {:induction false} EntriesInOrder(colliders: seq<Collider>, n: nat)
    requires n <= |colliders|
    requires forall i :: 0 <= i < |colliders| ==> (colliders[i].isAttached <==> i < ATTACHED)
    ensures var es := Entries(colliders, n);
            |es| == (if n < ATTACHED then n else ATTACHED) && forall i :: 0 <= i < |es| ==> es[i].collider == i
  {
    hide GetBounds;
    if n > 0 {
      EntriesInOrder(colliders, n - 1);
    }
  }

  lemma AttachedInMatch(ball: BallType, length: Vec -> real, c: Core)
    requires InMatch(ball, c)
    ensures |c.colliders| == INIT_SIZE && forall i :: 0 <= i < |c.colliders| ==> (c.colliders[i].isAttached <==> i < ATTACHED)
    ensures forall i :: 0 <= i < ATTACHED ==> c.colliders[i].body == OWNERS[i] && c.colliders[i].isTrigger == Start(ball).colliders[i].isTrigger
  {
    hide StartBodies, SetupOf, StartColliders;
    StartOwners(ball);
    StartAttached(ball);
    SameSetup(References(length), Start(ball), c);
  }

  lemma StartAttached(ball: BallType)
    ensures forall i :: 0 <= i < INIT_SIZE ==> (Start(ball).colliders[i].isAttached <==> i < ATTACHED)
    ensures forall i :: 0 <= i < ATTACHED ==> (Start(ball).colliders[i].isTrigger <==> i in {6, 8, 10, 12})
  {
    hide StartBodies, StartColliders;
    FirstAttached(ball);
    assert forall i :: 0 <= i < INIT_SIZE ==>
        Start(ball).colliders[i] == if i < ATTACHED then StartColliders(ball)[i] else UNUSED_COLLIDER;
  }

  lemma FirstAttached(ball: BallType)
    ensures |StartColliders(ball)| == ATTACHED && forall i :: 0 <= i < ATTACHED ==> StartColliders(ball)[i].isAttached
    ensures forall i :: 0 <= i < ATTACHED ==> (StartColliders(ball)[i].isTrigger <==> i in {6, 8, 10, 12})
  {
    hide StartBodies;
  }

  /** The pairs of a frame: all pairs of attached colliders, each once. */
  const PAIRS := Positions(0, ATTACHED)

  lemma PairsInMatch(ball: BallType, length: Vec -> real, c: Core)
    requires InMatch(ball, c)
    ensures var leaves := Leaves(TreeOf(References(length), c));
            (forall t :: t in leaves ==> t.Leaf?) && PairsIn(leaves) == PAIRS
  {
    hide InMatch, Positions, RootBounds, Entries;
    AttachedInMatch(ball, length, c);
    var es := Entries(c.colliders, INIT_SIZE);
    EntriesInOrder(c.colliders, INIT_SIZE);
    SmallTreeIsLeaf(RootBounds(es), es, MAX_COL_NBR, MAX_DEPTH);
    var leaf := Leaf(es, RootBounds(es), 0);
    assert Leaves(TreeOf(References(length), c)) == [leaf];
    assert [leaf][1..] == [];
    InBounds(0, ATTACHED);
    assert PairsOf(es) == PAIRS;
  }

  /** The world in which the pairs of a frame are visited. */
  function WorldPlaced(cfg: Config, c: Core): (c': Core)
    requires CoreOk(cfg, c)
    ensures CoreOk(cfg, c') && SetupOf(c') == SetupOf(c)
  {
    PlaceColliders(cfg, UpdateBodies(cfg, c, FIXED_DELTA_TIME))
  }

  /** The world update of a frame visits each pair of attached colliders once, in order. */
  lemma FrameVisitsAllPairs(ball: BallType, length: Vec -> real, c: Core)
    requires InMatch(ball, c)
    ensures var cfg := References(length);
            && CoreOk(cfg, c) && PairsOk(WorldPlaced(cfg, c), PAIRS)
            && WorldUpdate(cfg, c, FIXED_DELTA_TIME) == VisitAll(cfg, WorldPlaced(cfg, c), PAIRS)
  {
    hide InMatch, VisitLeaves, VisitAll, TreeOf, PlaceColliders, CoreOk, SetupOf, PairsOk;
    var cfg := References(length);
    InMatchIsOk(ball, length, c);
    PlacedInMatch(ball, cfg, c);
    PairsInMatch(ball, length, WorldPlaced(cfg, c));
    LeavesOfTreeOk(cfg, WorldPlaced(cfg, c));
    VisitLeavesIs(cfg, WorldPlaced(cfg, c), Leaves(TreeOf(cfg, WorldPlaced(cfg, c))));
  }

  lemma PlacedInMatch(ball: BallType, cfg: Config, c: Core)
    requires CoreOk(cfg, c) && InMatch(ball, c)
    ensures InMatch(ball, WorldPlaced(cfg, c))
  {
    hide SetupOf, Start;
  }

  lemma VisitedAfter(ps: seq<(nat, nat)>, k: nat, pair: Pair)
    requires k < |ps| && forall l :: 0 <= l < |ps| && l != k ==> PairOf(ps[l].0, ps[l].1) != pair
    ensures !Visited(ps[..k], pair) && !Visited(ps[k + 1..], pair)
  {
    var rest := ps[k + 1..];
    forall l | 0 <= l < |rest| ensures PairOf(rest[l].0, rest[l].1) != pair {
      assert rest[l] == ps[k + 1 + l];
    }
  }

  /** Where a pair of positions stands. */
  lemma StandsOnce(n: nat, i: nat, j: nat) returns (k: nat)
    requires i < j < n
    ensures OnlyAt(Positions(0, n), k) && Positions(0, n)[k] == (i, j)
  {
    hide Positions, PairOf, Visited;
    PositionsAreAll(0, n);
    InBounds(0, n);
    var ps := Positions(0, n);
    assert (i, j) in ps;
    k :| 0 <= k < |ps| && ps[k] == (i, j);
    forall l | 0 <= l < |ps| && l != k ensures PairOf(ps[l].0, ps[l].1) != PairOf(i, j) {
      PairIsSymmetric(ps[l].0, ps[l].1, i, j);
    }
    VisitedAfter(ps, k, PairOf(i, j));
  }

  /** Where a pair is visited. */
  lemma VisitedOnce(i: nat, j: nat) returns (k: nat)
    requires i < j < ATTACHED
    ensures OnlyAt(PAIRS, k) && PAIRS[k] == (i, j)
  {
    hide Positions, OnlyAt;
    k := StandsOnce(ATTACHED, i, j);
  }

  /** After the world update of a frame, a pair of a trigger and another body's collider is open if and only if
      the two overlap when the pair is visited. */
  lemma FrameTriggers(ball: BallType, length: Vec -> real, c: Core, i: nat, j: nat) returns (k: nat)
    requires InMatch(ball, c) && i < j < ATTACHED && OWNERS[i] != OWNERS[j] && (i in {6, 8, 10, 12} || j in {6, 8, 10, 12})
    ensures var cfg := References(length);
            && CoreOk(cfg, c) && PairsOk(WorldPlaced(cfg, c), PAIRS)
            && OnlyAt(PAIRS, k) && PAIRS[k] == (i, j)
            && var before := Before(cfg, WorldPlaced(cfg, c), PAIRS, k);
            && TriggerPair(before, i, j)
            && before.colliders[i].body < |before.bodies| && before.colliders[j].body < |before.bodies|
            && (PairOf(i, j) in WorldUpdate(cfg, c, FIXED_DELTA_TIME).pairs <==> Overlap(before, i, j))
  {
    hide InMatch, Positions, CoreOk, SetupOf, PairsOk, VisitAll, WorldUpdate, Overlap, WorldPlaced, Visited, Start, Before;
    var cfg := References(length);
    FrameVisitsAllPairs(ball, length, c);
    PlacedInMatch(ball, cfg, c);
    AttachedInMatch(ball, length, WorldPlaced(cfg, c));
    k := VisitedOnce(i, j);
    TriggersOfStart(ball, i, j);
    LastVisitDecides(cfg, WorldPlaced(cfg, c), PAIRS, k);
  }

  lemma TriggersOfStart(ball: BallType, i: nat, j: nat)
    requires i < ATTACHED && j < ATTACHED
    ensures Start(ball).colliders[i].isTrigger <==> i in {6, 8, 10, 12}
    ensures Start(ball).colliders[j].isTrigger <==> j in {6, 8, 10, 12}
  {
    hide Start;
    StartAttached(ball);
  }

  /** In a frame red scores one goal if the ball overlaps the left goal when that pair is visited and the pair was
      not open, and none otherwise; blue so at the right goal. */
  lemma FrameGoals(ball: BallType, length: Vec -> real, c: Core, left: bool) returns (k: nat)
    requires InMatch(ball, c)
    ensures var cfg, goal := References(length), if left then 6 else 8;
            && CoreOk(cfg, c) && PairsOk(WorldPlaced(cfg, c), PAIRS)
            && OnlyAt(PAIRS, k) && PAIRS[k] == (0, goal)
            && var before, c' := Before(cfg, WorldPlaced(cfg, c), PAIRS, k), WorldUpdate(cfg, c, FIXED_DELTA_TIME);
            && TriggerPair(before, 0, goal)
            && before.colliders[0].body < |before.bodies| && before.colliders[goal].body < |before.bodies|
            && var goals := if PairOf(0, goal) !in c.pairs && Overlap(before, 0, goal) then 1 else 0;
               if left then c'.redScore == c.redScore + goals else c'.blueScore == c.blueScore + goals
  {
    hide InMatch, Positions, CoreOk, SetupOf, PairsOk, VisitAll, WorldUpdate, Overlap, WorldPlaced, Visited, Start, Before;
    var cfg, goal := References(length), if left then 6 else 8;
    FrameVisitsAllPairs(ball, length, c);
    PlacedInMatch(ball, cfg, c);
    PlacedKeeps(cfg, c);
    AttachedInMatch(ball, length, WorldPlaced(cfg, c));
    k := VisitedOnce(0, goal);
    TriggersOfStart(ball, 0, goal);
    PairIsSymmetric(0, goal, goal, 0);
    OneGoalAtMost(cfg, WorldPlaced(cfg, c), PAIRS, k, left);
  }

  lemma PlacedKeeps(cfg: Config, c: Core)
    requires CoreOk(cfg, c)
    ensures var c' := WorldPlaced(cfg, c);
            c' == c.(bodies := c'.bodies, colliders := c'.colliders)
  {
    hide SetupOf;
  }

  /** In a frame a player comes to stand on the ground if and only if its collider touches the ground's when
      that pair is visited. */
  lemma FrameGrounds(ball: BallType, length: Vec -> real, c: Core)
    requires InMatch(ball, c)
    ensures var cfg := References(length);
            && CoreOk(cfg, c) && PairsOk(WorldPlaced(cfg, c), PAIRS)
            && var c' := WorldUpdate(cfg, c, FIXED_DELTA_TIME);
            && (c'.blueGrounded <==> c.blueGrounded || Touched(cfg, WorldPlaced(cfg, c), PAIRS, PairOf(1, 9)))
            && (c'.redGrounded <==> c.redGrounded || Touched(cfg, WorldPlaced(cfg, c), PAIRS, PairOf(1, 11)))
  {
    hide InMatch, Positions, CoreOk, SetupOf, PairsOk, VisitAll, WorldUpdate, WorldPlaced, Touched, Start;
    var cfg := References(length);
    FrameVisitsAllPairs(ball, length, c);
    PlacedKeeps(cfg, c);
    PairIsSymmetric(1, 9, 9, 1);
    PairIsSymmetric(1, 11, 11, 1);
    GroundedByTouch(cfg, WorldPlaced(cfg, c), PAIRS);
  }

  /** A goal puts ball and players back to where `Setup` put them, at rest; nothing else moves. */
  lemma GoalPutsBack(ball: BallType, length: Vec -> real, c: Core, goal: nat)
    requires InMatch(ball, c) && goal in {6, 8}
    ensures var cfg := References(length);
            && CoreOk(cfg, c) && Attached(c, 0) && Attached(c, goal)
            && var c' := VisitPair(cfg, c, 0, goal);
            && |c'.bodies| == |c.bodies| == INIT_SIZE
            && (if Opens(cfg, c, 0, goal, PairOf(0, goal)) then
                  && (forall k :: k in {0, 7, 8} ==>
                        c'.bodies[k] == c.bodies[k].(position := Start(ball).bodies[k].position, velocity := ZERO))
                  && (forall k :: 0 <= k < INIT_SIZE && k !in {0, 7, 8} ==> c'.bodies[k] == c.bodies[k])
                else c'.bodies == c.bodies)
  {
    hide CoreOk, SetupOf, StartColliders, Start;
    var cfg := References(length);
    InMatchIsOk(ball, length, c);
    AttachedInMatch(ball, length, c);
    BodiesInMatch(ball, length, c);
    TriggersOfStart(ball, 0, goal);
    PairIsSymmetric(0, goal, goal, 0);
    PairIsSymmetric(0, goal, 6, 0);
    PairIsSymmetric(0, goal, 8, 0);
    VisitTriggerMoves(cfg, c, 0, goal);
    StartPositions(ball);
  }

  lemma BodiesInMatch(ball: BallType, length: Vec -> real, c: Core)
    requires InMatch(ball, c)
    ensures |c.bodies| == INIT_SIZE
  {
    hide StartBodies, StartColliders, SetupOf;
    StartMasses(ball);
    SameSetup(References(length), Start(ball), c);
  }

  lemma StartPositions(ball: BallType)
    ensures |Start(ball).bodies| == INIT_SIZE
    ensures Start(ball).bodies[0].position == Vec(WINDOW_WIDTH * 0.5, WINDOW_HEIGHT * 0.5)
    ensures Start(ball).bodies[7].position == Vec(WINDOW_WIDTH * 0.33, WINDOW_HEIGHT * 0.66)
    ensures Start(ball).bodies[8].position == Vec(WINDOW_WIDTH - WINDOW_WIDTH * 0.33, WINDOW_HEIGHT * 0.66)
  {
    hide StartColliders;
  }
}
