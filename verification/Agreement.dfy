/** Whole matches: in every run in which the master plays on time the two peers agree. */
module Agreement {
  import opened Inputs
  import opened Simulation
  import opened RollbackSpec
  import opened RollbackLaws
  import opened PeerSpec
  import opened SessionSpec
  import opened SessionInvariant
  import MasterSteps
  import ClientSteps

  /** Playing a frame keeps a peer in order, with one more input of its own. */
  lemma PlayOk<S(!new)>(sim: Sim<S>, me: int, p: Peer<S>, own: seq<Input>, other: seq<Input>, input: Input)
    requires Symmetric(sim) && PeerOk(sim, me, p, own, other) && WellFormed(p) && p.rb.currentFrame == |own|
    ensures PeerOk(sim, me, PlayFrame(sim, p, input), own + [input], other)
    ensures WindowOf(PlayFrame(sim, p, input).window, own + [input], |own| - |p.window|)
  {
    hide Faithful, Symmetric, Play, Window;
    PlayFaithful(sim, p.rb, own, other, input);
    WindowExtends(own, |own| - |p.window|, input);
  }

  lemma WindowExtends(own: seq<Input>, first: nat, input: Input)
    requires first <= |own|
    ensures Window(own, first, |own|) + [FrameInput(input, |own|)] == Window(own + [input], first, |own| + 1)
    ensures Window(own + [input], first, |own| + 1)[0].frame == first
  {
  }

  lemma LinkedToPlayingMaster<S>(sim: Sim<S>, m: Peer<S>, m': Peer<S>, c: Peer<S>, blue: seq<Input>, red: seq<Input>,
                                 toClient: nat, toMaster: nat, input: Input)
    requires Linked(sim, m, c, blue, red, toClient, toMaster)
    requires |m'.window| == |m.window| + 1 && WindowOf(m'.window, blue + [input], Dropped(m, blue))
    requires m'.sent == m.sent + [InputPacket(m'.window)] && m'.queue == m.queue
    requires m'.rb.frameToConfirm == m.rb.frameToConfirm
    ensures Linked(sim, m', c, blue + [input], red, toClient, toMaster)
  {
    var blue', bound := blue + [input], c.rb.frameToConfirm;
    assert blue == blue'[..|blue|] && red == red[..|red|];
    ReliableAppend(m.sent, InputPacket(m'.window));
    InputsGrow(m.sent, blue, bound, blue', bound);
    InputsGrow(c.queue, blue, bound, blue', bound);
    WindowGrows(m'.window, blue', Dropped(m, blue), blue', bound);
    ConfirmationsGrow(sim, Reliable(m.sent), blue, red, blue', red);
  }

  lemma LinkedToPlayingClient<S>(sim: Sim<S>, m: Peer<S>, c: Peer<S>, c': Peer<S>, blue: seq<Input>, red: seq<Input>,
                                 toClient: nat, toMaster: nat, input: Input)
    requires Linked(sim, m, c, blue, red, toClient, toMaster)
    requires |c'.window| == |c.window| + 1 && WindowOf(c'.window, red + [input], Dropped(c, red))
    requires c'.sent == c.sent + [InputPacket(c'.window)] && c'.queue == c.queue
    requires c'.rb.frameToConfirm == c.rb.frameToConfirm
    ensures Linked(sim, m, c', blue, red + [input], toClient, toMaster)
  {
    var red', bound := red + [input], c.rb.frameToConfirm;
    assert red == red'[..|red|] && blue == blue[..|blue|];
    ReliableAppend(c.sent, InputPacket(c'.window));
    InputsGrow(c.sent, red, bound, red', bound);
    InputsGrow(m.queue, red, bound, red', bound);
    ConfirmationsGrow(sim, Reliable(m.sent), blue, red, blue, red');
  }

  lemma AdvanceOk<S>(sim: Sim<S>, me: int, p: Peer<S>, own: seq<Input>, other: seq<Input>)
    requires PeerOk(sim, me, p, own, other) && |own| == p.rb.currentFrame + 1
    ensures PeerOk(sim, me, Advanced(p), own, other)
  {
    AdvanceFaithful(sim, p.rb, own, other);
  }

  lemma OtherPlayed<S>(sim: Sim<S>, me: int, p: Peer<S>, own: seq<Input>, other: seq<Input>, input: Input)
    requires PeerOk(sim, me, p, own, other)
    ensures PeerOk(sim, me, p, own, other + [input])
  {
    RemoteProgress(sim, p.rb, own, other, input);
  }

  lemma MasterPlays<S(!new)>(sim: Sim<S>, m: Peer<S>, c: Peer<S>, blue: seq<Input>, red: seq<Input>,
                             toClient: nat, toMaster: nat, input: Input)
    requires Symmetric(sim) && Inv(sim, m, c, blue, red, toClient, toMaster)
    requires WellFormed(m) && m.rb.currentFrame == |blue|
    ensures Inv(sim, PlayFrame(sim, m, input), c, blue + [input], red, toClient, toMaster)
    ensures PlayFrame(sim, m, input).rb.currentFrame == |blue|
  {
    PlayOk(sim, 0, m, blue, red, input);
    OtherPlayed(sim, 1, c, red, blue, input);
    LinkedToPlayingMaster(sim, m, PlayFrame(sim, m, input), c, blue, red, toClient, toMaster, input);
  }

  lemma ClientPlays<S(!new)>(sim: Sim<S>, m: Peer<S>, c: Peer<S>, blue: seq<Input>, red: seq<Input>,
                             toClient: nat, toMaster: nat, input: Input)
    requires Symmetric(sim) && Inv(sim, m, c, blue, red, toClient, toMaster)
    requires WellFormed(c) && c.rb.currentFrame == |red|
    ensures Inv(sim, m, PlayFrame(sim, c, input), blue, red + [input], toClient, toMaster)
    ensures PlayFrame(sim, c, input).rb.currentFrame == |red|
  {
    PlayOk(sim, 1, c, red, blue, input);
    OtherPlayed(sim, 0, m, blue, red, input);
    LinkedToPlayingClient(sim, m, c, PlayFrame(sim, c, input), blue, red, toClient, toMaster, input);
  }

  lemma LinkedAdvanced<S>(sim: Sim<S>, m: Peer<S>, c: Peer<S>, blue: seq<Input>, red: seq<Input>,
                          toClient: nat, toMaster: nat, ended: bool)
    requires Linked(sim, m, c, blue, red, toClient, toMaster)
    ensures Linked(sim, Advanced(m).(ended := ended), c, blue, red, toClient, toMaster)
    ensures Linked(sim, m, Advanced(c).(ended := ended), blue, red, toClient, toMaster)
  {
  }

  /** The step after the last frame only ends the match. */
  lemma MasterEnds<S>(sim: Sim<S>, m: Peer<S>, c: Peer<S>, blue: seq<Input>, red: seq<Input>,
                      toClient: nat, toMaster: nat, ended: bool)
    requires Inv(sim, m, c, blue, red, toClient, toMaster)
    requires |blue| == m.rb.currentFrame + 1
    ensures Inv(sim, Advanced(m).(ended := ended), c, blue, red, toClient, toMaster)
  {
    AdvanceOk(sim, 0, m, blue, red);
    LinkedAdvanced(sim, m, c, blue, red, toClient, toMaster, ended);
  }

  lemma {:induction false} MasterStepOk<S(!new)>(sim: Sim<S>, m: Peer<S>, c: Peer<S>, blue: seq<Input>, red: seq<Input>,
                              toClient: nat, toMaster: nat, input: Input)
    requires Symmetric(sim) && Inv(sim, m, c, blue, red, toClient, toMaster)
    requires Active(m) && AtRest(m, blue) && StepsOnTime(sim, m)
    ensures var o := FixedStep(sim, m, input);
            && o.Continue?
            && Inv(sim, o.peer, c, Given(m, blue, input), red, toClient, toMaster)
            && AtRest(o.peer, Given(m, blue, input))
  {
    hide HandleAll, Inv, PlayFrame;
    var next := Advanced(m);
    if next.rb.currentFrame >= GAME_FRAMES {
      MasterEnds(sim, m, c, blue, red, toClient, toMaster, true);
    } else {
      MasterEnds(sim, m, c, blue, red, toClient, toMaster, m.ended);
      MasterSteps.MasterHandlesAll(sim, next, c, blue, red, toClient, toMaster);
      MasterPlays(sim, HandleAll(sim, next).peer, c, blue, red, toClient, toMaster, input);
    }
  }

  /** The step after the last frame only ends the match. */
  lemma ClientEnds<S>(sim: Sim<S>, m: Peer<S>, c: Peer<S>, blue: seq<Input>, red: seq<Input>,
                      toClient: nat, toMaster: nat, ended: bool)
    requires Inv(sim, m, c, blue, red, toClient, toMaster)
    requires |red| == c.rb.currentFrame + 1
    ensures Inv(sim, m, Advanced(c).(ended := ended), blue, red, toClient, toMaster)
  {
    AdvanceOk(sim, 1, c, red, blue);
    LinkedAdvanced(sim, m, c, blue, red, toClient, toMaster, ended);
  }

  lemma {:induction false} ClientStepOk<S(!new)>(sim: Sim<S>, m: Peer<S>, c: Peer<S>, blue: seq<Input>, red: seq<Input>,
                              toClient: nat, toMaster: nat, input: Input)
    requires Symmetric(sim) && Inv(sim, m, c, blue, red, toClient, toMaster)
    requires Active(c) && AtRest(c, red)
    ensures var o := FixedStep(sim, c, input);
            && o.Continue?
            && Inv(sim, m, o.peer, blue, Given(c, red, input), toClient, toMaster)
            && AtRest(o.peer, Given(c, red, input))
  {
    hide HandleAll, Inv, PlayFrame;
    var next := Advanced(c);
    if next.rb.currentFrame >= GAME_FRAMES {
      ClientEnds(sim, m, c, blue, red, toClient, toMaster, true);
    } else {
      ClientEnds(sim, m, c, blue, red, toClient, toMaster, c.ended);
      ClientSteps.ClientHandlesAll(sim, m, next, blue, red, toClient, toMaster);
      ClientPlays(sim, m, HandleAll(sim, next).peer, blue, red, toClient, toMaster, input);
    }
  }

  lemma QueueDoesNotMatter<S>(sim: Sim<S>, me: int, p: Peer<S>, p': Peer<S>, own: seq<Input>, other: seq<Input>)
    requires PeerOk(sim, me, p, own, other) && p' == p.(queue := p'.queue)
    ensures PeerOk(sim, me, p', own, other)
  {
  }

  lemma DeliverToMaster<S>(sim: Sim<S>, m: Peer<S>, c: Peer<S>, blue: seq<Input>, red: seq<Input>,
                           toClient: nat, toMaster: nat, packet: Packet)
    requires Linked(sim, m, c, blue, red, toClient, toMaster)
    requires packet.InputPacket? ==> packet in c.sent
    requires !packet.InputPacket? ==> toMaster < |Reliable(c.sent)| && packet == Reliable(c.sent)[toMaster]
    ensures Linked(sim, Enqueue(m, packet), c, blue, red, toClient, if packet.InputPacket? then toMaster else toMaster + 1)
  {
    ReliableAppend(m.queue, packet);
  }

  lemma DeliverToClient<S>(sim: Sim<S>, m: Peer<S>, c: Peer<S>, blue: seq<Input>, red: seq<Input>,
                           toClient: nat, toMaster: nat, packet: Packet)
    requires Linked(sim, m, c, blue, red, toClient, toMaster)
    requires packet.InputPacket? ==> packet in m.sent
    requires !packet.InputPacket? ==> toClient < |Reliable(m.sent)| && packet == Reliable(m.sent)[toClient]
    ensures Linked(sim, m, Enqueue(c, packet), blue, red, if packet.InputPacket? then toClient else toClient + 1, toMaster)
  {
    ReliableAppend(c.queue, packet);
  }

  lemma {:induction false} ReliableHasNoInputs(packets: seq<Packet>, i: nat)
    requires i < |Reliable(packets)|
    ensures !Reliable(packets)[i].InputPacket?
    decreases |packets|
  {
    var rest := packets[..|packets| - 1];
    if i < |Reliable(rest)| {
      ReliableHasNoInputs(rest, i);
    }
  }

  /** What a delivery changes: one queue, and the counter of its channel. */
  ghost predicate Delivered<S>(sim: Sim<S>, s: Session<S>, s': Session<S>) {
    && s.Running? && s'.Running? && s'.blue == s.blue && s'.red == s.red
    && s'.master == s.master.(queue := s'.master.queue) && s'.client == s.client.(queue := s'.client.queue)
    && Linked(sim, s'.master, s'.client, s'.blue, s'.red, s'.toClient, s'.toMaster)
  }

  lemma DeliverInputOk<S>(sim: Sim<S>, s: Session<S>, player: nat, i: nat)
    requires s.Running? && Linked(sim, s.master, s.client, s.blue, s.red, s.toClient, s.toMaster)
    ensures Delivered(sim, s, Do(sim, s, DeliverInput(player, i)))
  {
    var m, c := s.master, s.client;
    if player == 0 && i < |c.sent| && c.sent[i].InputPacket? {
      DeliverToMaster(sim, m, c, s.blue, s.red, s.toClient, s.toMaster, c.sent[i]);
    } else if player != 0 && i < |m.sent| && m.sent[i].InputPacket? {
      DeliverToClient(sim, m, c, s.blue, s.red, s.toClient, s.toMaster, m.sent[i]);
    }
  }

  lemma {:induction false} DeliverReliableOk<S>(sim: Sim<S>, s: Session<S>, player: nat)
    requires s.Running? && Linked(sim, s.master, s.client, s.blue, s.red, s.toClient, s.toMaster)
    ensures Delivered(sim, s, Do(sim, s, DeliverReliable(player)))
  {
    hide PeerOk, Linked, Reliable;
    var m, c := s.master, s.client;
    if player == 0 && s.toMaster < |Reliable(c.sent)| {
      ReliableHasNoInputs(c.sent, s.toMaster);
      DeliverToMaster(sim, m, c, s.blue, s.red, s.toClient, s.toMaster, Reliable(c.sent)[s.toMaster]);
    } else if player != 0 && s.toClient < |Reliable(m.sent)| {
      ReliableHasNoInputs(m.sent, s.toClient);
      DeliverToClient(sim, m, c, s.blue, s.red, s.toClient, s.toMaster, Reliable(m.sent)[s.toClient]);
    }
  }

  ghost predicate Safe<S>(sim: Sim<S>, s: Session<S>) {
    && s.Running?
    && Inv(sim, s.master, s.client, s.blue, s.red, s.toClient, s.toMaster)
    && AtRest(s.master, s.blue) && AtRest(s.client, s.red)
  }

  lemma StartSafe<S>(sim: Sim<S>, guard: Guard)
    ensures Safe(sim, Start(sim, guard))
  {
    FreshFaithful(sim, 0);
    FreshFaithful(sim, 1);
  }

  lemma DeliveredSafe<S>(sim: Sim<S>, s: Session<S>, s': Session<S>)
    requires Safe(sim, s) && Delivered(sim, s, s')
    ensures Safe(sim, s')
  {
    QueueDoesNotMatter(sim, 0, s.master, s'.master, s.blue, s.red);
    QueueDoesNotMatter(sim, 1, s.client, s'.client, s.red, s.blue);
  }

  lemma {:induction false} DoSafe<S(!new)>(sim: Sim<S>, s: Session<S>, a: Action)
    requires Symmetric(sim) && Safe(sim, s)
    requires a.Step? && a.player == 0 ==> StepsOnTime(sim, s.master)
    ensures Safe(sim, Do(sim, s, a))
  {
    hide PeerOk, Linked, FixedStep, Symmetric;
    match a {
      case DeliverInput(player, i) =>
        DeliverInputOk(sim, s, player, i);
        DeliveredSafe(sim, s, Do(sim, s, a));
      case DeliverReliable(player) =>
        DeliverReliableOk(sim, s, player);
        DeliveredSafe(sim, s, Do(sim, s, a));
      case Step(player, input) =>
        if player == 0 && Active(s.master) {
          MasterStepOk(sim, s.master, s.client, s.blue, s.red, s.toClient, s.toMaster, input);
        } else if player != 0 && Active(s.client) {
          ClientStepOk(sim, s.master, s.client, s.blue, s.red, s.toClient, s.toMaster, input);
        }
    }
  }

  /** The invariant holds in every state of every run in which the master plays on time. */
  lemma {:induction false} RunSafe<S(!new)>(sim: Sim<S>, guard: Guard, actions: seq<Action>)
    requires Symmetric(sim) && PlayedOnTime(sim, guard, actions)
    ensures Safe(sim, Run(sim, guard, actions))
    decreases |actions|
  {
    if actions == [] {
      StartSafe(sim, guard);
    } else {
      var before := actions[..|actions| - 1];
      RunSafe(sim, guard, before);
      DoSafe(sim, Run(sim, guard, before), actions[|actions| - 1]);
    }
  }

  /** No read past the end, no checksum report, and every confirmed state of either peer is the true one
      over the inputs really given. */
  ghost predicate Agreed<S>(sim: Sim<S>, s: Session<S>) {
    && s.Running?
    && s.master.errors == 0 && s.client.errors == 0
    && 0 <= s.client.rb.frameToConfirm <= s.master.rb.frameToConfirm <= |s.blue|
    && s.master.rb.frameToConfirm <= |s.red|
    && s.master.rb.confirmed == Truth(sim, s.blue, s.red, s.master.rb.frameToConfirm)
    && s.client.rb.confirmed == Truth(sim, s.blue, s.red, s.client.rb.frameToConfirm)
  }

  /** Each peer shows the replay of its own inputs against the remote inputs it has received, the last of
      them held. */
  ghost predicate ShowsReplay<S>(sim: Sim<S>, s: Session<S>) {
    && s.Running?
    && -1 <= s.master.rb.lastRemote < |s.red| && -1 <= s.client.rb.lastRemote < |s.blue|
    && s.master.rb.current == Truth(sim, s.blue, Predicted(s.red, s.master.rb.lastRemote + 1, |s.blue|), |s.blue|)
    && s.client.rb.current == Truth(sim, Predicted(s.blue, s.client.rb.lastRemote + 1, |s.red|), s.red, |s.red|)
  }

  /** The resend windows: contiguous, from the number of acknowledged (master) or confirmed (client)
      frames up to the last frame sent, so a peer never waits for an input that is no longer resent. */
  ghost predicate WindowsReach<S>(s: Session<S>) {
    && s.Running?
    && |s.master.window| <= |s.blue| && |s.client.window| <= |s.red|
    && s.master.window == Window(s.blue, |s.blue| - |s.master.window|, |s.blue|)
    && s.client.window == Window(s.red, |s.red| - |s.client.window|, |s.red|)
    && |s.blue| - |s.master.window| <= s.client.rb.lastRemote + 1
    && |s.red| - |s.client.window| == s.client.rb.frameToConfirm <= s.master.rb.lastRemote + 1
  }

  /** Two-peer agreement. */
  lemma {:induction false} TwoPeersAgree<S(!new)>(sim: Sim<S>, guard: Guard, actions: seq<Action>)
    requires Symmetric(sim) && PlayedOnTime(sim, guard, actions)
    ensures Agreed(sim, Run(sim, guard, actions))
  {
    hide PlayedOnTime, Run, Truth, Window, Symmetric;
    RunSafe(sim, guard, actions);
  }

  /** Speculation is exact, however few re-simulations were done. */
  lemma {:induction false} SpeculationIsExact<S(!new)>(sim: Sim<S>, guard: Guard, actions: seq<Action>)
    requires Symmetric(sim) && PlayedOnTime(sim, guard, actions)
    ensures ShowsReplay(sim, Run(sim, guard, actions))
  {
    hide Linked, PlayedOnTime, Run, Predicted, Truth, Window, Symmetric;
    RunSafe(sim, guard, actions);
  }

  lemma {:induction false} ResendWindows<S(!new)>(sim: Sim<S>, guard: Guard, actions: seq<Action>)
    requires Symmetric(sim) && PlayedOnTime(sim, guard, actions)
    ensures WindowsReach(Run(sim, guard, actions))
  {
    hide PlayedOnTime, Run, Truth, Window, Symmetric;
    RunSafe(sim, guard, actions);
  }
}
