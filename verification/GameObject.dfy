/** The game with its world, updated in place (engine/src/World.cpp, common/src/Game.cpp). */
module GameObject {
  import opened Inputs
  import opened Geometry
  import opened Bodies
  import opened QuadTreeSpec
  import opened QuadTreeObject
  import Solver = ContactSpec
  import opened ContactObject
  import opened GameSpec

  lemma {:induction false} VisitConcat(cfg: Config, c: Core, a: seq<Tree>, b: seq<Tree>)
    requires CoreOk(cfg, c) && LeavesOk(c, a) && LeavesOk(c, b)
    ensures LeavesOk(c, a + b) && LeavesOk(VisitLeaves(cfg, c, a), b)
    ensures VisitLeaves(cfg, c, a + b) == VisitLeaves(cfg, VisitLeaves(cfg, c, a), b)
    decreases |a|
  {
    hide VisitLeaf;
    SameSetup(cfg, c, VisitLeaves(cfg, c, a));
    if a == [] {
      assert a + b == b;
    } else {
      var c' := VisitLeaf(cfg, c, a[0].entries, 0);
      SameSetup(cfg, c, c');
      VisitConcat(cfg, c', a[1..], b);
      assert (a + b)[1..] == a[1..] + b;
    }
  }

  /** The leaves of the first `k` children, as the traversal meets them. */
  ghost function LeavesBelow(children: seq<Tree>, k: nat): seq<Tree>
    requires k <= |children|
  {
    Concat(seq(k, i requires 0 <= i < k => Leaves(children[i])))
  }

  lemma LeavesBelowNext(children: seq<Tree>, k: nat)
    requires k < |children|
    ensures LeavesBelow(children, k + 1) == LeavesBelow(children, k) + Leaves(children[k])
  {
    var parts := seq(k + 1, i requires 0 <= i < k + 1 => Leaves(children[i]));
    assert parts[..k] == seq(k, i requires 0 <= i < k => Leaves(children[i]));
  }

  lemma LeavesBelowAll(t: Tree)
    requires t.Inner? && |t.children| == 4
    ensures LeavesBelow(t.children, 0) == [] && LeavesBelow(t.children, 4) == Leaves(t)
  {
  }

  lemma NodeIs(ns: seq<Node>, n: nat, i: nat)
    requires IsTree(ns, n, i, MAX_DEPTH)
    ensures i < n <= |ns|
    ensures var t := TreeAt(ns, n, i, MAX_DEPTH);
            if ns[i].first == 0 then t.Leaf? && t.entries == ns[i].entries && Leaves(t) == [t]
            else i < ns[i].first && t.Inner? && |t.children| == 4
  {
  }

  lemma ChildIs(ns: seq<Node>, n: nat, i: nat, k: nat)
    requires IsTree(ns, n, i, MAX_DEPTH) && ns[i].first != 0 && k < 4
    ensures ns[i].first + k < n && IsTree(ns, n, ns[i].first + k, MAX_DEPTH)
    ensures var t := TreeAt(ns, n, i, MAX_DEPTH);
            && t.Inner? && |t.children| == 4
            && t.children[k] == TreeAt(ns, n, ns[i].first + k, MAX_DEPTH)
            && forall leaf :: leaf in Leaves(t.children[k]) ==> leaf in Leaves(t)
  {
    hide Leaves;
    var t := TreeAt(ns, n, i, MAX_DEPTH);
    forall leaf | leaf in Leaves(t.children[k]) ensures leaf in Leaves(t) {
      InLeaves(t, leaf);
    }
  }

  /** One more collider in the first loop of `SetUpQuadTree`, and in the second. */
  lemma NextEntry(colliders: seq<Collider>, i: nat, root: Tree)
    requires i < |colliders| && WellFormed(root, MAX_DEPTH)
    ensures RootBounds(Entries(colliders, i + 1)) ==
            if colliders[i].isAttached then Widen(RootBounds(Entries(colliders, i)), GetBounds(colliders[i]))
            else RootBounds(Entries(colliders, i))
    ensures BuildFrom(root, Entries(colliders, i + 1), MAX_COL_NBR, MAX_DEPTH) ==
            if colliders[i].isAttached
            then QuadTreeSpec.Insert(BuildFrom(root, Entries(colliders, i), MAX_COL_NBR, MAX_DEPTH),
                                     Entry(GetBounds(colliders[i]), i), MAX_COL_NBR, MAX_DEPTH)
            else BuildFrom(root, Entries(colliders, i), MAX_COL_NBR, MAX_DEPTH)
  {
    hide GetBounds, Widen, QuadTreeSpec.Insert, WellFormed;
    var es, e := Entries(colliders, i), Entry(GetBounds(colliders[i]), i);
    assert es + [] == es;
    assert (es + [e])[..|es|] == es;
  }

  lemma PlacedAre(cfg: Config, c: GameSpec.Core)
    requires CoreOk(cfg, c)
    ensures |GameSpec.PlaceColliders(cfg, c).colliders| == |c.colliders|
    ensures forall i :: 0 <= i < |c.colliders| ==>
              && (c.colliders[i].isAttached ==> c.colliders[i].body < |c.bodies|)
              && GameSpec.PlaceColliders(cfg, c).colliders[i] ==
                 if c.colliders[i].isAttached
                 then c.colliders[i].(bodyPosition := c.bodies[c.colliders[i].body].position) else c.colliders[i]
  {
    hide SetupOf;
  }

  lemma BothInPlace(cfg: Config, c: GameSpec.Core, i: nat, j: nat)
    requires CoreOk(cfg, c) && Collidable(c, i, j)
    ensures var a, b := c.colliders[i].body, c.colliders[j].body;
            a < |c.bodies| && b < |c.bodies| && c.bodies[a].mass > 0.0 && c.bodies[b].mass > 0.0
  {
  }

  lemma PlayersInPlace(cfg: Config, c: GameSpec.Core)
    requires CoreOk(cfg, c)
    ensures cfg.blueBody < |c.bodies| && cfg.redBody < |c.bodies| && cfg.ballBody < |c.bodies|
  {
  }

  lemma RefsInRange(cfg: Config, c: GameSpec.Core)
    requires CoreOk(cfg, c)
    ensures forall k :: 0 <= k < |cfg.colRefs| ==> cfg.colRefs[k] < |c.colliders|
  {
  }

  lemma NoEntries(colliders: seq<Collider>)
    ensures RootBounds(Entries(colliders, 0)) == Rect(Vec(FLOAT_MAX, FLOAT_MAX), Vec(FLOAT_MIN, FLOAT_MIN))
  {
  }

  /** A game with its world: bodies, colliders and open pairs are vectors and a set that are updated in
      place, the quadtree is an object of its own. */
  class Game {
    const cfg: Config
    const tree: QuadTree
    var bodies: seq<Body>
    var colliders: seq<Collider>
    var colRefPairs: set<Pair>
    var blueGrounded: bool
    var blueKickTime: real
    var canBlueKick: bool
    var blueScore: int
    var redGrounded: bool
    var redKickTime: real
    var canRedKick: bool
    var redScore: int
    ghost var events: seq<Event>
    var input: Input
    var otherInput: Input
    var playerNbr: int
    var inGame: bool

    ghost function Core(): GameSpec.Core
      reads this`bodies, this`colliders, this`colRefPairs, this`blueGrounded, this`blueKickTime, this`canBlueKick,
        this`blueScore, this`redGrounded, this`redKickTime, this`canRedKick, this`redScore, this`events
    {
      GameSpec.Core.Core(bodies, colliders, colRefPairs, blueGrounded, blueKickTime, canBlueKick, blueScore,
        redGrounded, redKickTime, canRedKick, redScore, events)
    }

    ghost function View(): GameSpec.Game
      reads this
    {
      GameSpec.Game.Game(Core(), playerNbr, input, otherInput, inGame)
    }

    ghost predicate Ready()
      reads this`bodies, this`colliders, this`colRefPairs, this`blueGrounded, this`blueKickTime, this`canBlueKick,
        this`blueScore, this`redGrounded, this`redKickTime, this`canRedKick, this`redScore, this`events
    {
      CoreOk(cfg, Core())
    }

    /** Nothing is asked of the nodes of the tree but their number and the depth of the root. */
    ghost predicate Valid()
      reads this, tree
    {
      Ready() && tree.PoolOk() && tree.capacity == MAX_COL_NBR && tree.maxDepth == MAX_DEPTH
    }

    /** A started game, given the core that `Setup` leaves. */
    constructor (cfg: Config, core: GameSpec.Core, playerNbr: int)
      requires CoreOk(cfg, core)
      ensures Valid() && View() == GameSpec.Game.Game(core, playerNbr, NO_INPUT, NO_INPUT, true)
      ensures this.cfg == cfg && fresh(tree)
    {
      this.cfg := cfg;
      tree := new QuadTree(MAX_COL_NBR, MAX_DEPTH);
      bodies, colliders, colRefPairs, events := core.bodies, core.colliders, core.pairs, core.events;
      blueGrounded, blueKickTime, canBlueKick, blueScore := core.blueGrounded, core.blueKickTime, core.canBlueKick, core.blueScore;
      redGrounded, redKickTime, canRedKick, redScore := core.redGrounded, core.redKickTime, core.canRedKick, core.redScore;
      input, otherInput, inGame := NO_INPUT, NO_INPUT, true;
      this.playerNbr := playerNbr;
    }

    // ----- World -----

    method UpdateBodies(dt: real)
      requires Ready()
      modifies this`bodies
      ensures Ready() && Core() == GameSpec.UpdateBodies(cfg, old(Core()), dt)
    {
      for i := 0 to |bodies|
        invariant |bodies| == |old(bodies)|
        invariant forall k :: 0 <= k < |bodies| ==>
                    bodies[k] == if k < i then Integrate(old(bodies)[k], dt) else old(bodies)[k]
      {
        var body := bodies[i];
        if !body.IsEnabled() || body.kind == STATIC {
          continue;
        }
        var acceleration := Vec(body.force.x / body.mass, body.force.y / body.mass);
        body := body.(velocity := body.velocity.Plus(acceleration.Times(dt)));
        body := body.(position := body.position.Plus(body.velocity.Times(dt)));
        bodies := bodies[i := body.(force := ZERO)];
      }
      assert bodies == GameSpec.UpdateBodies(cfg, old(Core()), dt).bodies;
    }

    /** The first loop of `SetUpQuadTree`: place the colliders and find the bounds of the root. */
    method PlaceColliders() returns (bounds: Rect)
      requires Ready()
      modifies this`colliders
      ensures Ready() && Core() == GameSpec.PlaceColliders(cfg, old(Core()))
      ensures bounds == RootBounds(Entries(colliders, |colliders|))
    {
      hide GetBounds, Widen, Entries, RootBounds, SetupOf, AllInPlace, Placed, GameSpec.PlaceColliders;
      bounds := Rect(Vec(FLOAT_MAX, FLOAT_MAX), Vec(FLOAT_MIN, FLOAT_MIN));
      ghost var before, after := Core(), GameSpec.PlaceColliders(cfg, Core());
      PlacedAre(cfg, before);
      NoEntries(after.colliders);
      for i := 0 to |colliders|
        invariant |colliders| == |after.colliders| == |before.colliders|
        invariant forall k :: 0 <= k < |colliders| ==>
                    colliders[k] == if k < i then after.colliders[k] else before.colliders[k]
        invariant bounds == RootBounds(Entries(after.colliders, i))
      {
        NextEntry(after.colliders, i, Leaf([], bounds, 0));
        if !colliders[i].isAttached {
          continue;
        }
        colliders := colliders[i := colliders[i].(bodyPosition := bodies[colliders[i].body].position)];
        var b := GetBounds(colliders[i]);
        bounds := Widen(bounds, b);
      }
      assert colliders == after.colliders;
    }

    method SetUpQuadTree()
      requires Valid()
      modifies this`colliders, tree
      ensures Valid() && tree.Valid()
      ensures Core() == GameSpec.PlaceColliders(cfg, old(Core()))
      ensures tree.View() == TreeOf(cfg, Core())
    {
      hide CoreOk, SetupOf, GetBounds, RootBounds, GameSpec.PlaceColliders, IsTree, TreeAt, Blank, QuadTreeSpec.Insert, WellFormed;
      var bounds := PlaceColliders();
      tree.SetUpRoot(bounds);
      ghost var root := Leaf([], bounds, 0);
      for i := 0 to |colliders|
        modifies tree
        invariant tree.Valid() && tree.capacity == MAX_COL_NBR && tree.maxDepth == MAX_DEPTH
        invariant tree.View() == BuildFrom(root, Entries(colliders, i), MAX_COL_NBR, MAX_DEPTH)
      {
        NextEntry(colliders, i, root);
        if colliders[i].isAttached {
          tree.InsertAtRoot(Entry(GetBounds(colliders[i]), i));
        }
      }
    }

    method ResolveContact(i: nat, j: nat)
      requires Ready() && Collidable(Core(), i, j)
      modifies this`bodies
      ensures Ready() && Core() == GameSpec.ResolveContact(cfg, old(Core()), i, j)
    {
      hide Solver.Resolve, SetupFrom, AllInPlace;
      BothInPlace(cfg, Core(), i, j);
      ghost var resolved := GameSpec.ResolveContact(cfg, Core(), i, j);
      ResolveKeepsFixed(cfg.length, ContactOf(Core(), i, j));
      var a, b := colliders[i], colliders[j];
      var contact := new Contact(cfg.length, Solver.Contact(bodies[a.body], bodies[b.body], a.shape, b.shape,
        a.restitution, b.restitution, ZERO, 1.0, 0.0));
      var exchanged := a.shape.RectShape? && b.shape.CircleShape?;
      contact.Resolve();
      bodies := bodies[a.body := if exchanged then contact.body1 else contact.body0];
      bodies := bodies[b.body := if exchanged then contact.body0 else contact.body1];
      assert Core() == resolved;
    }

    method VisitPair(i: nat, j: nat)
      requires Ready() && i < |colliders| && j < |colliders| && colliders[i].isAttached && colliders[j].isAttached
      modifies this`bodies, this`canBlueKick, this`canRedKick, this`blueScore, this`redScore,
        this`blueGrounded, this`redGrounded, this`colRefPairs, this`events
      ensures Ready() && Core() == GameSpec.VisitPair(cfg, old(Core()), i, j)
    {
      hide SetupFrom, GameSpec.ResolveContact, GameSpec.OnTriggerEnter, GameSpec.OnTriggerExit,
        GameSpec.OnCollisionEnter, OverlapAt;
      if colliders[i].body == colliders[j].body {
        return;
      }
      if !colliders[j].isTrigger && !colliders[i].isTrigger {
        if Overlaps(i, j) {
          ResolveContact(i, j);
          OnCollisionEnter(i, j);
        }
        return;
      }
      var pair := PairOf(i, j);
      if pair in colRefPairs {
        if !Overlaps(i, j) {
          OnTriggerExit(i, j);
          colRefPairs := colRefPairs - {pair};
          events := events + [Exit(pair)];
        }
        return;
      }
      if Overlaps(i, j) {
        OnTriggerEnter(i, j);
        colRefPairs := colRefPairs + {pair};
        events := events + [Enter(pair)];
      }
    }

    predicate Overlaps(i: nat, j: nat)
      requires i < |colliders| && j < |colliders| && colliders[i].body < |bodies| && colliders[j].body < |bodies|
      reads this
    {
      OverlapAt(colliders[i].shape, bodies[colliders[i].body].position, colliders[j].shape, bodies[colliders[j].body].position)
    }

    /** The inner loop over the entries of a leaf. */
    method VisitAgainst(es: seq<Entry>, i: nat)
      requires Ready() && EntriesOk(Core(), es) && i < |es|
      modifies this`bodies, this`canBlueKick, this`canRedKick, this`blueScore, this`redScore,
        this`blueGrounded, this`redGrounded, this`colRefPairs, this`events
      ensures Ready() && Core() == GameSpec.VisitAgainst(cfg, old(Core()), es, i, i + 1)
    {
      hide GameSpec.VisitPair, AllInPlace, SetupOf;
      ghost var c := Core();
      for j := i + 1 to |es|
        invariant Ready() && EntriesOk(Core(), es)
        invariant GameSpec.VisitAgainst(cfg, Core(), es, i, j) == GameSpec.VisitAgainst(cfg, c, es, i, i + 1)
      {
        ghost var before := Core();
        assert es[i] in es && es[j] in es;
        VisitPair(es[i].collider, es[j].collider);
        SameSetup(cfg, before, Core());
      }
    }

    /** The outer loop. */
    method VisitLeaf(es: seq<Entry>)
      requires Ready() && EntriesOk(Core(), es)
      modifies this`bodies, this`canBlueKick, this`canRedKick, this`blueScore, this`redScore,
        this`blueGrounded, this`redGrounded, this`colRefPairs, this`events
      ensures Ready() && Core() == GameSpec.VisitLeaf(cfg, old(Core()), es, 0)
    {
      hide GameSpec.VisitAgainst, AllInPlace, SetupOf;
      ghost var c := Core();
      for i := 0 to |es|
        invariant Ready() && EntriesOk(Core(), es)
        invariant GameSpec.VisitLeaf(cfg, Core(), es, i) == GameSpec.VisitLeaf(cfg, c, es, 0)
      {
        ghost var before := Core();
        VisitAgainst(es, i);
        SameSetup(cfg, before, Core());
      }
    }

    method UpdateQuadTreeCollisions(i: nat)
      requires Valid() && IsTree(tree.nodes, tree.nodeIndex, i, MAX_DEPTH)
      requires LeavesOk(Core(), Leaves(TreeAt(tree.nodes, tree.nodeIndex, i, MAX_DEPTH)))
      modifies this`bodies, this`canBlueKick, this`canRedKick, this`blueScore, this`redScore,
        this`blueGrounded, this`redGrounded, this`colRefPairs, this`events
      ensures Valid()
      ensures Core() == VisitLeaves(cfg, old(Core()), Leaves(TreeAt(tree.nodes, tree.nodeIndex, i, MAX_DEPTH)))
      decreases tree.nodeIndex - i
    {
      hide GameSpec.VisitLeaf, AllInPlace, SetupOf, EntriesOk, QuadTree.PoolOk, WellFormed, IsTree, TreeAt, Leaves, LeavesBelow;
      ghost var t, c := TreeAt(tree.nodes, tree.nodeIndex, i, MAX_DEPTH), Core();
      NodeIs(tree.nodes, tree.nodeIndex, i);
      if tree.nodes[i].first == 0 {
        assert Leaves(t)[1..] == [];
        VisitLeaf(tree.nodes[i].entries);
      } else {
        var f := tree.nodes[i].first;
        LeavesBelowAll(t);
        for k := 0 to 4
          invariant Valid() && LeavesOk(c, LeavesBelow(t.children, k))
          invariant Core() == VisitLeaves(cfg, c, LeavesBelow(t.children, k))
        {
          ChildIs(tree.nodes, tree.nodeIndex, i, k);
          LeavesBelowNext(t.children, k);
          VisitConcat(cfg, c, LeavesBelow(t.children, k), Leaves(t.children[k]));
          UpdateQuadTreeCollisions(f + k);
        }
      }
    }

    method WorldUpdate(dt: real)
      requires Valid()
      modifies this`bodies, this`canBlueKick, this`canRedKick, this`blueScore, this`redScore,
        this`blueGrounded, this`redGrounded, this`colRefPairs, this`events,
        this`colliders, tree
      ensures Valid() && Core() == GameSpec.WorldUpdate(cfg, old(Core()), dt)
    {
      hide GameSpec.UpdateBodies, GameSpec.PlaceColliders, TreeOf, VisitLeaves, AllInPlace, SetupOf;
      UpdateBodies(dt);
      SetUpQuadTree();
      LeavesOfTreeOk(cfg, Core());
      UpdateQuadTreeCollisions(0);
    }

    // ----- callbacks -----

    method OnTriggerEnter(a: nat, b: nat)
      requires Ready()
      modifies this`bodies, this`canBlueKick, this`canRedKick, this`blueScore, this`redScore
      ensures Ready() && Core() == GameSpec.OnTriggerEnter(cfg, old(Core()), a, b)
    {
      hide AllInPlace, SetupOf, ScoreLeft, ScoreRight;
      if (a == cfg.blueFeet && b == cfg.ballCol) || (b == cfg.blueFeet && a == cfg.ballCol) {
        canBlueKick := true;
      }
      if (a == cfg.redFeet && b == cfg.ballCol) || (b == cfg.redFeet && a == cfg.ballCol) {
        canRedKick := true;
      }
      assert Core() == AllowKick(cfg, old(Core()), a, b);
      EnterLeftGoal(a, b);
      EnterRightGoal(a, b);
    }

    method EnterLeftGoal(a: nat, b: nat)
      requires Ready()
      modifies this`bodies, this`redScore
      ensures Ready() && Core() == ScoreLeft(cfg, old(Core()), a, b)
    {
      hide AllInPlace, SetupOf, GameSpec.ResetPositions;
      if (a == cfg.leftGoal && b == cfg.ballCol) || (b == cfg.leftGoal && a == cfg.ballCol) {
        redScore := redScore + 1;
        ResetPositions();
      }
    }

    method EnterRightGoal(a: nat, b: nat)
      requires Ready()
      modifies this`bodies, this`blueScore
      ensures Ready() && Core() == ScoreRight(cfg, old(Core()), a, b)
    {
      hide AllInPlace, SetupOf, GameSpec.ResetPositions;
      if (a == cfg.rightGoal && b == cfg.ballCol) || (b == cfg.rightGoal && a == cfg.ballCol) {
        blueScore := blueScore + 1;
        ResetPositions();
      }
    }

    method OnTriggerExit(a: nat, b: nat)
      modifies this`canBlueKick, this`canRedKick
      ensures Core() == GameSpec.OnTriggerExit(cfg, old(Core()), a, b)
    {
      if (a == cfg.blueFeet && b == cfg.ballCol) || (b == cfg.blueFeet && a == cfg.ballCol) {
        canBlueKick := false;
      }
      if (a == cfg.redFeet && b == cfg.ballCol) || (b == cfg.redFeet && a == cfg.ballCol) {
        canRedKick := false;
      }
    }

    method OnCollisionEnter(a: nat, b: nat)
      modifies this`blueGrounded, this`redGrounded
      ensures Core() == GameSpec.OnCollisionEnter(cfg, old(Core()), a, b)
    {
      if (a == cfg.blueCol && b == cfg.ground) || (b == cfg.blueCol && a == cfg.ground) {
        blueGrounded := true;
      } else if (a == cfg.redCol && b == cfg.ground) || (b == cfg.redCol && a == cfg.ground) {
        redGrounded := true;
      }
    }

    method ResetPositions()
      requires Ready()
      modifies this`bodies
      ensures Ready() && Core() == GameSpec.ResetPositions(cfg, old(Core()))
    {
      bodies := bodies[cfg.ballBody := bodies[cfg.ballBody].(
        position := Vec(WINDOW_WIDTH * 0.5, WINDOW_HEIGHT * 0.5), velocity := ZERO)];
      bodies := bodies[cfg.blueBody := bodies[cfg.blueBody].(
        position := Vec(WINDOW_WIDTH * 0.33, WINDOW_HEIGHT * 0.66), velocity := ZERO)];
      bodies := bodies[cfg.redBody := bodies[cfg.redBody].(
        position := Vec(WINDOW_WIDTH - WINDOW_WIDTH * 0.33, WINDOW_HEIGHT * 0.66), velocity := ZERO)];
    }

    // ----- Game -----

    method ApplyForce(k: nat, f: Vec)
      requires Ready() && k < |bodies|
      modifies this`bodies
      ensures Ready() && Core() == GameSpec.ApplyForce(cfg, old(Core()), k, f) && |bodies| == old(|bodies|)
    {
      ghost var pushed := GameSpec.ApplyForce(cfg, Core(), k, f);
      bodies := bodies[k := bodies[k].(force := bodies[k].force.Plus(f))];
      assert Core() == pushed;
    }

    method Walk(body: nat, i: Input)
      requires Ready() && body < |bodies|
      modifies this`bodies
      ensures Ready() && Core() == GameSpec.Walk(cfg, old(Core()), body, i) && |bodies| == old(|bodies|)
    {
      hide SetupOf, AllInPlace, GameSpec.ApplyForce;
      if i & RIGHT != 0 {
        ApplyForce(body, Vec(WALK_SPEED, 0.0));
      }
      if i & LEFT != 0 {
        ApplyForce(body, Vec(-WALK_SPEED, 0.0));
      }
    }

    method ProcessBlue(i: Input)
      requires Ready()
      modifies this`bodies, this`blueGrounded, this`blueKickTime
      ensures Ready() && Core() == BlueInput(cfg, old(Core()), i)
    {
      hide SetupOf, AllInPlace, GameSpec.ApplyForce, GameSpec.Walk;
      PlayersInPlace(cfg, Core());
      Walk(cfg.blueBody, i);
      if i & JUMP != 0 && blueGrounded {
        ApplyForce(cfg.blueBody, Vec(0.0, JUMP_SPEED));
        blueGrounded := false;
      }
      if i & KICK != 0 && canBlueKick && blueKickTime >= 1.0 {
        ApplyForce(cfg.ballBody, Vec(SHOOT_FORCE, -SHOOT_FORCE));
        blueKickTime := 0.0;
      }
    }

    method ProcessRed(i: Input)
      requires Ready()
      modifies this`bodies, this`redGrounded, this`redKickTime
      ensures Ready() && Core() == RedInput(cfg, old(Core()), i)
    {
      hide SetupOf, AllInPlace, GameSpec.ApplyForce, GameSpec.Walk;
      PlayersInPlace(cfg, Core());
      Walk(cfg.redBody, i);
      if i & JUMP != 0 && redGrounded {
        ApplyForce(cfg.redBody, Vec(0.0, JUMP_SPEED));
        redGrounded := false;
      }
      if i & KICK != 0 && canRedKick && redKickTime >= 1.0 {
        ApplyForce(cfg.ballBody, Vec(-SHOOT_FORCE, -SHOOT_FORCE));
        redKickTime := 0.0;
      }
    }

    method ProcessInput()
      requires Ready()
      modifies this`bodies, this`blueGrounded, this`blueKickTime, this`redGrounded, this`redKickTime
      ensures Ready() && Core() == GameSpec.ProcessInput(cfg, old(View()), old(Core()))
    {
      if playerNbr == 0 {
        ProcessBlue(input);
        ProcessRed(otherInput);
      } else {
        ProcessRed(input);
        ProcessBlue(otherInput);
      }
    }

    method MoveBody(body: nat, i: Input, grounded: bool)
      requires Ready() && body < |bodies|
      modifies this`bodies
      ensures Ready() && Core() == WithBody(cfg, old(Core()), body, MovePlayer(old(bodies)[body], i, grounded))
    {
      var b := bodies[body];
      if b.velocity.x > MAX_SPEED {
        b := b.(velocity := Vec(MAX_SPEED, b.velocity.y));
      } else if b.velocity.x < -MAX_SPEED {
        b := b.(velocity := Vec(-MAX_SPEED, b.velocity.y));
      }
      b := b.(force := b.force.Plus(Vec(0.0, PLAYER_GRAVITY)));
      if i & RIGHT == 0 && i & LEFT == 0 && grounded {
        b := b.(velocity := b.velocity.Plus(ZERO.Minus(b.velocity).Times(1.0 / 10.0)));
      }
      ghost var moved := WithBody(cfg, Core(), body, MovePlayer(bodies[body], i, grounded));
      bodies := bodies[body := b];
      assert Core() == moved;
    }

    /** The loop over the colliders, for one of them. */
    method AfterInput(col: nat)
      requires Ready() && col < |colliders|
      modifies this`bodies
      ensures Ready() && Core() == GameSpec.AfterInput(cfg, BlueOf(View()), RedOf(View()), old(Core()), col)
    {
      hide SetupFrom, MovePlayer, Push;
      var body := colliders[col].body;
      if body == cfg.ballBody {
        ApplyForce(body, Vec(0.0, BALL_GRAVITY));
      } else if body == cfg.blueBody {
        MoveBody(body, if playerNbr == 0 then input else otherInput, blueGrounded);
      } else if body == cfg.redBody {
        MoveBody(body, if playerNbr == 1 then input else otherInput, redGrounded);
      }
    }

    method AfterInputs()
      requires Ready()
      modifies this`bodies
      ensures Ready()
      ensures Core() == GameSpec.AfterInputs(cfg, BlueOf(View()), RedOf(View()), old(Core()), |cfg.colRefs|)
    {
      hide GameSpec.AfterInput, SetupOf, AllInPlace;
      RefsInRange(cfg, Core());
      ghost var c, blue, red := Core(), BlueOf(View()), RedOf(View());
      for k := 0 to |cfg.colRefs|
        invariant Ready() && BlueOf(View()) == blue && RedOf(View()) == red
        invariant Core() == GameSpec.AfterInputs(cfg, blue, red, c, k)
      {
        AfterInput(cfg.colRefs[k]);
      }
    }

    /** The first half of `FixedUpdate`, which does not look at the inputs. */
    method Tick()
      requires Valid()
      modifies this`bodies, this`canBlueKick, this`canRedKick, this`blueScore, this`redScore,
        this`blueGrounded, this`redGrounded, this`colRefPairs, this`events,
        this`colliders, this`blueKickTime, this`redKickTime, tree
      ensures Valid() && Core() == Ticked(cfg, old(Core()))
    {
      hide GameSpec.WorldUpdate, AllInPlace, SetupOf, QuadTree.PoolOk;
      WorldUpdate(FIXED_DELTA_TIME);
      blueKickTime := blueKickTime + FIXED_DELTA_TIME;
      redKickTime := redKickTime + FIXED_DELTA_TIME;
    }

    method FixedUpdate()
      requires Valid()
      modifies this`bodies, this`canBlueKick, this`canRedKick, this`blueScore, this`redScore,
        this`blueGrounded, this`redGrounded, this`colRefPairs, this`events,
        this`colliders, this`blueKickTime, this`redKickTime, tree
      ensures Valid() && View() == GameSpec.FixedUpdate(cfg, old(View()))
    {
      hide Core, Ticked, BlueInput, RedInput, GameSpec.AfterInputs, CoreOk, SetupOf, QuadTree.PoolOk;
      if !inGame {
        return;
      }
      Tick();
      ProcessInput();
      AfterInputs();
    }

    /** Everything is copied but the player number, the running state and the references; the copied
        nodes of the quadtree are as stale as the other game's. */
    method Copy(other: Game)
      requires Valid() && other.Valid() && other.cfg == cfg && other.tree != tree
      modifies this, tree
      ensures Valid() && View() == GameSpec.Copy(old(View()), old(other.View()))
      ensures tree.nodes == old(other.tree.nodes)
    {
      hide Core, CoreOk, SetupOf, QuadTree.PoolOk, QuadTree.Valid, IsTree;
      assert other != this && CoreOk(cfg, other.Core());
      CopyCore(other);
      tree.CopyNodes(other.tree);
      input, otherInput := other.input, other.otherInput;
    }

    method CopyCore(other: Game)
      requires other != this
      modifies this`bodies, this`colliders, this`colRefPairs, this`events, this`blueGrounded, this`redGrounded,
        this`blueKickTime, this`redKickTime, this`canBlueKick, this`canRedKick, this`blueScore, this`redScore
      ensures Core() == old(other.Core())
    {
      CopyWorld(other);
      CopyFlags(other);
    }

    method CopyWorld(other: Game)
      requires other != this
      modifies this`bodies, this`colliders, this`colRefPairs, this`events
      ensures bodies == other.bodies && colliders == other.colliders
      ensures colRefPairs == other.colRefPairs && events == other.events
    {
      bodies, colliders, colRefPairs, events := other.bodies, other.colliders, other.colRefPairs, other.events;
    }

    method CopyFlags(other: Game)
      requires other != this
      modifies this`blueGrounded, this`redGrounded, this`blueKickTime, this`redKickTime, this`canBlueKick, this`canRedKick,
        this`blueScore, this`redScore
      ensures blueKickTime == other.blueKickTime && redKickTime == other.redKickTime
      ensures canBlueKick == other.canBlueKick && canRedKick == other.canRedKick
      ensures blueGrounded == other.blueGrounded && redGrounded == other.redGrounded
      ensures blueScore == other.blueScore && redScore == other.redScore
    {
      blueKickTime, redKickTime := other.blueKickTime, other.redKickTime;
      canBlueKick, canRedKick := other.canBlueKick, other.canRedKick;
      blueGrounded, redGrounded := other.blueGrounded, other.redGrounded;
      blueScore, redScore := other.blueScore, other.redScore;
    }
  }
}
