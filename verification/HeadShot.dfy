/** The game as the simulation that the two peers replay: the agreement of the peers, for the real
    fixed update and the real checksum. */
module HeadShot {
  import opened Inputs
  import opened Simulation
  import opened RollbackSpec
  import opened PeerSpec
  import opened Bodies
  import opened GameSpec
  import opened GameLaws
  import opened SessionSpec
  import opened Agreement
  import opened EarlyConfirmation
  import opened OnTimeExactly
  import opened StrictGuard

  /** A running game of player `nbr` with its own and the other input. */
  function Running(core: Core, nbr: int, own: Input, other: Input): Game { Game(core, nbr, own, other, true) }

  /** One fixed update from a state as `Setup` leaves it. States that no game reaches stay as they are. */
  function HeadShotSim(cfg: Config, start: Core, bits: real -> int): Sim<Core> {
    Sim(start,
        (nbr, c, own, other) => if CoreOk(cfg, c) then FixedUpdate(cfg, Running(c, nbr, own, other)).core else c,
        c => if CoreOk(cfg, c) then CheckSum(cfg, c, bits) else 0)
  }

  /** Both peers compute the same next state. */
  lemma {:induction false} HeadShotSymmetric(cfg: Config, start: Core, bits: real -> int)
    ensures Symmetric(HeadShotSim(cfg, start, bits))
  {
    var sim := HeadShotSim(cfg, start, bits);
    forall c: Core, blue: Input, red: Input ensures sim.update(0, c, blue, red) == sim.update(1, c, red, blue) {
      if CoreOk(cfg, c) {
        PeerSymmetry(cfg, Running(c, 0, blue, red));
        assert Mirror(Running(c, 0, blue, red)) == Running(c, 1, red, blue);
      }
    }
  }

  /** The frames of two input rows as pairs. */
  function Frames(blue: seq<Input>, red: seq<Input>, n: nat): seq<(Input, Input)>
    requires n <= |blue| && n <= |red|
  {
    seq(n, i requires 0 <= i < n => (blue[i], red[i]))
  }

  /** What the peers agree on is what a single game would do that is given all inputs. */
  lemma {:induction false} TruthIsOneGame(cfg: Config, start: Core, bits: real -> int,
                                          blue: seq<Input>, red: seq<Input>, n: nat)
    requires CoreOk(cfg, start) && n <= |blue| && n <= |red|
    ensures Truth(HeadShotSim(cfg, start, bits), blue, red, n)
         == PlayAll(cfg, Running(start, 0, NO_INPUT, NO_INPUT), Frames(blue, red, n)).core
  {
    hide AllInPlace, SetupOf, Ticked, WithInputs;
    if n > 0 {
      TruthIsOneGame(cfg, start, bits, blue, red, n - 1);
      var fs := Frames(blue, red, n);
      assert fs[..n - 1] == Frames(blue, red, n - 1);
      var g := PlayAll(cfg, Running(start, 0, NO_INPUT, NO_INPUT), fs[..n - 1]);
      PlayInputsAgree(cfg, g, Running(g.core, 0, NO_INPUT, NO_INPUT), blue[n - 1], red[n - 1]);
    }
  }

  /** Two peers playing Head Shot as they should: nothing has crashed, no checksum ever differed, both
      confirmed games are the one game over the inputs really given, each shown game is the one game over
      the own inputs and the remote ones known, the last one held, and the resend windows reach back. */
  ghost predicate PlaysHeadShot(cfg: Config, start: Core, s: Session<Core>)
    requires CoreOk(cfg, start)
  {
    && s.Running?
    && s.master.errors == 0 && s.client.errors == 0 && WindowsReach(s)
    && var m, c, g := s.master.rb, s.client.rb, Running(start, 0, NO_INPUT, NO_INPUT);
    && 0 <= c.frameToConfirm <= m.frameToConfirm <= |s.blue| && m.frameToConfirm <= |s.red|
    && m.confirmed == PlayAll(cfg, g, Frames(s.blue, s.red, m.frameToConfirm)).core
    && c.confirmed == PlayAll(cfg, g, Frames(s.blue, s.red, c.frameToConfirm)).core
    && -1 <= m.lastRemote < |s.red| && -1 <= c.lastRemote < |s.blue|
    && m.current == PlayAll(cfg, g, Frames(s.blue, Predicted(s.red, m.lastRemote + 1, |s.blue|), |s.blue|)).core
    && c.current == PlayAll(cfg, g, Frames(Predicted(s.blue, c.lastRemote + 1, |s.red|), s.red, |s.red|)).core
  }

  lemma InTheGame(cfg: Config, start: Core, bits: real -> int, s: Session<Core>)
    requires CoreOk(cfg, start)
    requires var sim := HeadShotSim(cfg, start, bits); Agreed(sim, s) && ShowsReplay(sim, s) && WindowsReach(s)
    ensures PlaysHeadShot(cfg, start, s)
  {
    hide Truth, PlayAll, Frames, Predicted, WindowsReach, HeadShotSim, CoreOk;
    TruthIsOneGame(cfg, start, bits, s.blue, s.red, s.master.rb.frameToConfirm);
    TruthIsOneGame(cfg, start, bits, s.blue, s.red, s.client.rb.frameToConfirm);
    TruthIsOneGame(cfg, start, bits, s.blue, Predicted(s.red, s.master.rb.lastRemote + 1, |s.blue|), |s.blue|);
    TruthIsOneGame(cfg, start, bits, Predicted(s.blue, s.client.rb.lastRemote + 1, |s.red|), s.red, |s.red|);
  }

  /** In every run in which the master plays on time. */
  lemma HeadShotPeersAgree(cfg: Config, start: Core, bits: real -> int, guard: Guard, actions: seq<Action>)
    requires CoreOk(cfg, start) && PlayedOnTime(HeadShotSim(cfg, start, bits), guard, actions)
    ensures PlaysHeadShot(cfg, start, Run(HeadShotSim(cfg, start, bits), guard, actions))
  {
    hide Agreed, ShowsReplay, WindowsReach, PlayedOnTime, Run, PlaysHeadShot;
    var sim := HeadShotSim(cfg, start, bits);
    HeadShotSymmetric(cfg, start, bits);
    TwoPeersAgree(sim, guard, actions);
    SpeculationIsExact(sim, guard, actions);
    ResendWindows(sim, guard, actions);
    InTheGame(cfg, start, bits, Run(sim, guard, actions));
  }

  /** With the stricter guard, in every run. */
  lemma HeadShotWithStrictGuard(cfg: Config, start: Core, bits: real -> int, actions: seq<Action>)
    requires CoreOk(cfg, start)
    ensures PlaysHeadShot(cfg, start, Run(HeadShotSim(cfg, start, bits), AtCurrent, actions))
  {
    hide Agreed, ShowsReplay, WindowsReach, Run, PlaysHeadShot;
    HeadShotSymmetric(cfg, start, bits);
    StrictGuardIsSafe(HeadShotSim(cfg, start, bits), actions);
    InTheGame(cfg, start, bits, Run(HeadShotSim(cfg, start, bits), AtCurrent, actions));
  }

  // ----- an early confirmation always loses an input -----

  /** The loop over the colliders adds only vertical forces. */
  lemma {:induction false} SidewaysForceKept(cfg: Config, blue: Input, red: Input, c: Core, n: nat, k: nat)
    requires CoreOk(cfg, c) && n <= |cfg.colRefs| && k < |c.bodies|
    ensures |AfterInputs(cfg, blue, red, c, n).bodies| == |c.bodies|
    ensures AfterInputs(cfg, blue, red, c, n).bodies[k].force.x == c.bodies[k].force.x
  {
    if n > 0 {
      SidewaysForceKept(cfg, blue, red, c, n - 1, k);
      var c' := AfterInputs(cfg, blue, red, c, n - 1);
      SameSetup(cfg, c, c');
      OneSidewaysForceKept(cfg, blue, red, c', cfg.colRefs[n - 1], k);
    }
  }

  lemma OneSidewaysForceKept(cfg: Config, blue: Input, red: Input, c: Core, col: nat, k: nat)
    requires CoreOk(cfg, c) && col < |c.colliders| && k < |c.bodies|
    ensures |AfterInput(cfg, blue, red, c, col).bodies| == |c.bodies|
    ensures AfterInput(cfg, blue, red, c, col).bodies[k].force.x == c.bodies[k].force.x
  {
    hide SetupOf, MovePlayer;
    var body := c.colliders[col].body;
    if body < |c.bodies| {
      MoveKeepsSideways(c.bodies[body], blue, c.blueGrounded);
      MoveKeepsSideways(c.bodies[body], red, c.redGrounded);
    }
  }

  lemma MoveKeepsSideways(b: Body, i: Input, grounded: bool)
    ensures MovePlayer(b, i, grounded).force.x == b.force.x
  {
  }

  /** Pressing only "right" adds to the blue player's sideways force, pressing nothing does not. */
  lemma RightPushes(cfg: Config, c: Core)
    requires CoreOk(cfg, c)
    ensures BlueInput(cfg, c, NO_INPUT).bodies[cfg.blueBody].force.x == c.bodies[cfg.blueBody].force.x
    ensures BlueInput(cfg, c, RIGHT).bodies[cfg.blueBody].force.x == c.bodies[cfg.blueBody].force.x + WALK_SPEED
  {
    assert Pressed(RIGHT, RIGHT) && !Pressed(RIGHT, LEFT) && !Pressed(RIGHT, JUMP) && !Pressed(RIGHT, KICK);
    assert !Pressed(NO_INPUT, RIGHT) && !Pressed(NO_INPUT, LEFT) && !Pressed(NO_INPUT, JUMP) && !Pressed(NO_INPUT, KICK);
  }

  /** The sideways force on the blue player after a frame is the one of its input. */
  lemma ForceAfterFrame(cfg: Config, c: Core, blue: Input, red: Input)
    requires CoreOk(cfg, c)
    ensures var ticked := Ticked(cfg, c);
            && cfg.blueBody < |FixedUpdate(cfg, Running(c, 0, blue, red)).core.bodies|
            && FixedUpdate(cfg, Running(c, 0, blue, red)).core.bodies[cfg.blueBody].force.x
               == BlueInput(cfg, RedInput(cfg, ticked, red), blue).bodies[cfg.blueBody].force.x
  {
    var g, ticked := Running(c, 0, blue, red), Ticked(cfg, c);
    InputsCommute(cfg, ticked, blue, red);
    SidewaysForceKept(cfg, blue, red, ProcessInput(cfg, g, ticked), |cfg.colRefs|, cfg.blueBody);
  }

  lemma InputsMatterInTheGame(cfg: Config, start: Core, bits: real -> int, c: Core, red: Input)
    requires CoreOk(cfg, c)
    ensures InputMatters(HeadShotSim(cfg, start, bits), c, red)
  {
    var sim := HeadShotSim(cfg, start, bits);
    ForceAfterFrame(cfg, c, RIGHT, red);
    ForceAfterFrame(cfg, c, NO_INPUT, red);
    RightPushes(cfg, RedInput(cfg, Ticked(cfg, c), red));
    assert sim.update(0, c, RIGHT, red) != sim.update(0, c, NO_INPUT, red);
  }

  /** In Head Shot, after any run on time, the master's next fixed step agrees for every local input if and
      only if it handles its packets on time. */
  lemma HeadShotExactlyOnTime(cfg: Config, start: Core, bits: real -> int, actions: seq<Action>)
    requires CoreOk(cfg, start) && PlayedOnTime(HeadShotSim(cfg, start, bits), PastCurrent, actions)
    ensures var sim := HeadShotSim(cfg, start, bits);
            var s := Run(sim, PastCurrent, actions);
            s.Running?
            && (Active(s.master) && Advanced(s.master).rb.currentFrame < GAME_FRAMES ==>
                  ((forall input: Input :: MasterAgrees(sim, PlayedOn(sim, actions, input)))
                   <==> StepsOnTime(sim, s.master)))
  {
    hide PlayedOnTime, Run, MasterAgrees, PlayedOn, HandledOnTime;
    var sim := HeadShotSim(cfg, start, bits);
    HeadShotSymmetric(cfg, start, bits);
    RunExactlyOnTime(sim, actions);
    var s := Run(sim, PastCurrent, actions);
    if Active(s.master) && Advanced(s.master).rb.currentFrame < GAME_FRAMES && !StepsOnTime(sim, s.master) {
      EarlyNeedsClientInput(sim, actions);
      TruthIsOneGame(cfg, start, bits, s.blue, s.red, |s.blue|);
      InputsMatterInTheGame(cfg, start, bits, Truth(sim, s.blue, s.red, |s.blue|), s.red[|s.blue|]);
    }
  }

  /** The schedules on which Head Shot agrees whatever the players press are exactly those on time. */
  lemma {:induction false} HeadShotAgreesExactlyOnTime(cfg: Config, start: Core, bits: real -> int, actions: seq<Action>)
    requires CoreOk(cfg, start)
    ensures var sim := HeadShotSim(cfg, start, bits);
            PlayedOnTime(sim, PastCurrent, actions)
            <==> forall n :: 0 <= n < |actions| ==> GoesOnAgreeing(sim, actions[..n], actions[n])
    decreases |actions|
  {
    hide Run, MasterAgrees, PlayedOn, HandledOnTime, HeadShotSim;
    var sim := HeadShotSim(cfg, start, bits);
    if actions != [] {
      var k := |actions| - 1;
      var before := actions[..k];
      HeadShotAgreesExactlyOnTime(cfg, start, bits, before);
      assert forall n :: 0 <= n < k ==> before[..n] == actions[..n] && before[n] == actions[n];
      if PlayedOnTime(sim, PastCurrent, before) {
        HeadShotExactlyOnTime(cfg, start, bits, before);
        assert GoesOnAgreeing(sim, before, actions[k]) <==>
               (Run(sim, PastCurrent, before).Running? && actions[k].Step? && actions[k].player == 0 ==>
                  StepsOnTime(sim, Run(sim, PastCurrent, before).master));
      } else {
        var n :| 0 <= n < k && !GoesOnAgreeing(sim, before[..n], before[n]);
        assert !GoesOnAgreeing(sim, actions[..n], actions[n]);
      }
    }
  }
}
