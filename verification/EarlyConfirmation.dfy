/** When the master plays on time and what happens when it does not. The confirmation loop stops only
    at frames strictly past the current one, so a packet that ends exactly at the current frame makes
    the master confirm that frame before its own input for it is recorded. */
module EarlyConfirmation {
  import opened Inputs
  import opened Simulation
  import opened RollbackSpec
  import opened RollbackLaws
  import opened PeerSpec
  import opened SessionSpec
  import opened SessionInvariant
  import opened MasterSteps

  /** A master that is handling packets and has a fresh window of the client's inputs before it; every
      input packet the master meets in a run is one, or is stale. */
  ghost predicate Facing<S>(sim: Sim<S>, m: Peer<S>, entries: seq<FrameInput>, blue: seq<Input>, red: seq<Input>,
                            bound: int) {
    && PeerOk(sim, 0, m, blue, red) && MasterLog(sim, m, blue, red, bound)
    && WellFormed(m) && m.rb.currentFrame == |blue| && m.guard.PastCurrent?
    && WindowOf(entries, red, bound) && bound <= m.rb.frameToConfirm
    && 0 <= Dropped(m, blue) <= m.rb.frameToConfirm
    && !Stale(m.rb, entries)
  }

  /** In a run that has been on time so far, a fresh input packet at the head of the master's queue is
      such a window. */
  lemma HeadIsFacing<S>(sim: Sim<S>, m: Peer<S>, c: Peer<S>, blue: seq<Input>, red: seq<Input>,
                        toClient: nat, toMaster: nat)
    requires Inv(sim, m, c, blue, red, toClient, toMaster) && WellFormed(m) && m.rb.currentFrame == |blue|
    requires m.queue != [] && m.queue[0].InputPacket? && m.guard.PastCurrent?
    ensures var entries := m.queue[0].entries;
            entries != [] && (Stale(m.rb, entries) || Facing(sim, m, entries, blue, red, c.rb.frameToConfirm))
  {
    assert WindowOf(m.queue[0].entries, red, c.rb.frameToConfirm);
  }

  lemma {:induction false} ConfirmedUpToNext<S>(sim: Sim<S>, p: Peer<S>, target: nat)
    requires WellFormed(p) && p.rb.frameToConfirm <= target < GAME_FRAMES
    ensures WellFormed(ConfirmedUpTo(sim, p, target)) && ConfirmedUpTo(sim, p, target).rb.frameToConfirm == target
    ensures ConfirmedUpTo(sim, p, target + 1) == ConfirmedOnce(sim, ConfirmedUpTo(sim, p, target))
    decreases target - p.rb.frameToConfirm
  {
    if p.rb.frameToConfirm < target {
      ConfirmedUpToNext(sim, ConfirmedOnce(sim, p), target);
    }
  }

  /** The two inputs a faithful master would use for the frame it has not played yet. */
  lemma EarlyInputs<S>(sim: Sim<S>, r: RollbackState<S>, blue: seq<Input>, red: seq<Input>)
    requires Faithful(sim, r, blue, red) && r.me == 0
    requires r.frameToConfirm == |blue| < GAME_FRAMES && |blue| <= r.lastRemote
    ensures Confirm(sim, r).confirmed == sim.update(0, Truth(sim, blue, red, |blue|), NO_INPUT, red[|blue|])
  {
  }

  /** The master just before it confirms its current frame. */
  lemma UpToDate<S(!new)>(sim: Sim<S>, m: Peer<S>, entries: seq<FrameInput>, blue: seq<Input>, red: seq<Input>, bound: int)
    returns (upToDate: Peer<S>)
    requires Symmetric(sim) && Facing(sim, m, entries, blue, red, bound)
    requires EndsAtCurrentFrame(m, entries)
    ensures WellFormed(upToDate) && PeerOk(sim, 0, upToDate, blue, red)
    ensures upToDate.rb.frameToConfirm == upToDate.rb.currentFrame == upToDate.rb.lastRemote == |blue| < |red|
    ensures upToDate == m.(rb := upToDate.rb, sent := upToDate.sent)
    ensures HandleInput(sim, m, entries) == Continue(ConfirmedOnce(sim, upToDate))
  {
    TakesAndConfirms(sim, m, entries, blue, red, bound);
    hide Receive, HandleInput, Faithful, Symmetric, WindowOf, MasterLog;
    var received := m.(rb := Receive(sim, m.rb, entries, 1));
    ConfirmedUpToNext(sim, received, |blue|);
    ConfirmedUpToOk(sim, received, |blue|, blue, red, bound);
    upToDate := ConfirmedUpTo(sim, received, |blue|);
  }

  /** The frame is confirmed with the empty input the table still holds for it, and the confirmation
      carries the resend window, which ends before that frame. */
  lemma ConfirmedEarly<S(!new)>(sim: Sim<S>, m: Peer<S>, entries: seq<FrameInput>, blue: seq<Input>, red: seq<Input>, bound: int)
    requires Symmetric(sim) && Facing(sim, m, entries, blue, red, bound)
    requires EndsAtCurrentFrame(m, entries)
    ensures var o := HandleInput(sim, m, entries);
            && o.Continue? && |blue| < |red|
            && o.peer == m.(rb := o.peer.rb, sent := o.peer.sent)
            && o.peer.rb.frameToConfirm == m.rb.currentFrame + 1
            && o.peer.rb.currentFrame == o.peer.rb.lastRemote == |blue| && o.peer.rb.me == 0
            && o.peer.rb.confirmed == sim.update(0, Truth(sim, blue, red, |blue|), NO_INPUT, red[|blue|])
            && o.peer.sent != []
            && o.peer.sent[|o.peer.sent| - 1] == Confirmation(sim.checksum(o.peer.rb.confirmed), m.window)
  {
    hide HandleInput, MasterLog, WindowOf, Replay;
    var upToDate := UpToDate(sim, m, entries, blue, red, bound);
    EarlyInputs(sim, upToDate.rb, blue, red);
  }

  /** The master confirms only frames whose local input is recorded exactly when the packet does not
      end at its current frame. */
  lemma ConfirmsRecordedFramesOnly<S(!new)>(sim: Sim<S>, m: Peer<S>, entries: seq<FrameInput>,
                                            blue: seq<Input>, red: seq<Input>, bound: int)
    requires Symmetric(sim) && Facing(sim, m, entries, blue, red, bound)
    ensures var o := HandleInput(sim, m, entries);
            && o.Continue?
            && (o.peer.rb.frameToConfirm <= |blue| <==> !EndsAtCurrentFrame(m, entries))
  {
    if EndsAtCurrentFrame(m, entries) {
      ConfirmedEarly(sim, m, entries, blue, red, bound);
    } else {
      TakeWindow(sim, m, entries, blue, red, bound);
    }
  }

  /** Some input of the blue player leads to another state than the empty input does. */
  ghost predicate InputMatters<S(!new)>(sim: Sim<S>, s: S, red: Input) {
    exists blue: Input :: sim.update(0, s, blue, red) != sim.update(0, s, NO_INPUT, red)
  }

  /** Whatever local input is recorded next, the confirmed game is the true one: this holds exactly
      unless the packet ends at the current frame and the input of that frame matters. */
  lemma AgreementExactlyOnTime<S(!new)>(sim: Sim<S>, m: Peer<S>, entries: seq<FrameInput>,
                                        blue: seq<Input>, red: seq<Input>, bound: int)
    requires Symmetric(sim) && Facing(sim, m, entries, blue, red, bound)
    ensures var o := HandleInput(sim, m, entries);
            && o.Continue? && o.peer.rb.frameToConfirm <= |blue| + 1 && o.peer.rb.frameToConfirm <= |red|
            && (EndsAtCurrentFrame(m, entries) ==> |blue| < |red|)
            && ((forall input: Input :: o.peer.rb.confirmed == Truth(sim, blue + [input], red, o.peer.rb.frameToConfirm))
                <==> !(EndsAtCurrentFrame(m, entries) && InputMatters(sim, Truth(sim, blue, red, |blue|), red[|blue|])))
  {
    hide HandleInput, MasterLog, Window;
    var o := HandleInput(sim, m, entries);
    if EndsAtCurrentFrame(m, entries) {
      ConfirmedEarly(sim, m, entries, blue, red, bound);
      var s := Truth(sim, blue, red, |blue|);
      forall input: Input
        ensures Truth(sim, blue + [input], red, |blue| + 1) == sim.update(0, s, input, red[|blue|])
      {
        TruthCongruent(sim, 0, |blue|, blue, red, blue + [input], red);
      }
    } else {
      TakeWindow(sim, m, entries, blue, red, bound);
      forall input: Input
        ensures o.peer.rb.confirmed == Truth(sim, blue + [input], red, o.peer.rb.frameToConfirm)
      {
        TruthCongruent(sim, 0, o.peer.rb.frameToConfirm, blue, red, blue + [input], red);
      }
    }
  }

  // ----- the client's side -----

  /** The checksum of an early confirmation of frame `k`: its blue input is taken to be empty. */
  function EarlyChecksum<S>(sim: Sim<S>, blue: seq<Input>, red: seq<Input>, k: nat): int
    requires k <= |blue| && k < |red|
  {
    sim.checksum(sim.update(0, Truth(sim, blue, red, k), NO_INPUT, red[k]))
  }

  /** What the client confirms its next frame with: the master's input if it has arrived, else what the
      table holds for it. */
  function ClientsBlue<S>(c: Peer<S>): Input
    requires WellFormed(c) && c.rb.frameToConfirm < GAME_FRAMES
  {
    c.rb.table[0][c.rb.frameToConfirm]
  }

  /** How an early confirmation of its next frame ends for the client: it reads past the end exactly when
      the window that comes with it is empty, that is when everything before that frame was acknowledged;
      otherwise the frame is reported exactly when the checksums with the client's and with the empty blue
      input differ, and acknowledged when they do not. */
  lemma ClientMeetsEarly<S(!new)>(sim: Sim<S>, c: Peer<S>, blue: seq<Input>, red: seq<Input>, acknowledged: nat)
    requires Symmetric(sim) && PeerOk(sim, 1, c, red, blue) && WellFormed(c) && c.window != []
    requires acknowledged <= c.rb.frameToConfirm <= |blue| && c.rb.frameToConfirm < |red|
    ensures c.rb.lastRemote >= c.rb.frameToConfirm ==> ClientsBlue(c) == blue[c.rb.frameToConfirm]
    ensures var k := c.rb.frameToConfirm;
            var o := HandleConfirmation(sim, c, EarlyChecksum(sim, blue, red, k), Window(blue, acknowledged, k));
            var clients := sim.checksum(sim.update(0, Truth(sim, blue, red, k), ClientsBlue(c), red[k]));
            && (o.Fault? <==> acknowledged == k)
            && (o.Stop? <==> acknowledged < k && clients != EarlyChecksum(sim, blue, red, k))
            && (o.Stop? ==> o.peer.errors == c.errors + 1) && (o.Continue? ==> o.peer.errors == c.errors)
  {
    var k := c.rb.frameToConfirm;
    hide Replay, Speculation;
    assert TakeConfirmed(sim, c, Window(blue, acknowledged, k)).Fault? <==> acknowledged == k;
    assert Confirm(sim, c.rb).confirmed == sim.update(0, Truth(sim, blue, red, k), ClientsBlue(c), red[k]);
  }

  // ----- a run that is not on time -----

  /** The client plays frame 0 before the master does, its packet arrives, the master plays frame 0 and
      confirms it at once, and the confirmation reaches the client. */
  function EarlyRun(blue: Input, red: Input, red': Input): seq<Action> {
    [Step(1, red), DeliverInput(0, 0), Step(0, blue), DeliverReliable(1), Step(1, red')]
  }

  lemma FirstStep<S>(sim: Sim<S>, me: int, input: Input)
    requires me == 0 || me == 1
    ensures var o := FixedStep(sim, FreshPeer(sim, me, PastCurrent), input);
            && o.Continue? && Active(o.peer) && o.peer.rb.me == me && o.peer.rb.currentFrame == 0
            && o.peer.queue == [] && o.peer.sent == [InputPacket([FrameInput(input, 0)])]
  {
    assert [] + [FrameInput(input, 0)] == [FrameInput(input, 0)];
  }

  lemma EarlyFirstStep<S>(sim: Sim<S>, red: Input, blue: Input)
    ensures var m := Enqueue(FreshPeer(sim, 0, PastCurrent), InputPacket([FrameInput(red, 0)]));
            var o := FixedStep(sim, m, blue);
            && o.Continue? && |o.peer.sent| == 2
            && o.peer.sent[0].Confirmation? && o.peer.sent[0].entries == []
            && o.peer.sent[1].InputPacket?
  {
    var entries := [FrameInput(red, 0)];
    assert entries == Window([red], 0, 1);
    var m := Advanced(Enqueue(FreshPeer(sim, 0, PastCurrent), InputPacket(entries)));
    HandleInputIs(sim, m, entries, [red], 0, 1);
    ReceiveFields(sim, m.rb, entries, 1);
    var received := m.(rb := Receive(sim, m.rb, entries, 1));
    assert ConfirmedUpTo(sim, received, 1) == ConfirmedOnce(sim, received);
    var handled := ConfirmedOnce(sim, received).(queue := []);
    assert m.queue[1..] == [];
    assert HandleHead(sim, m) == Continue(handled);
    assert HandleAll(sim, m) == HandleAll(sim, handled) == Stop(handled);
  }

  /** A client that has played frame 0 and finds a confirmation without inputs. */
  lemma EmptyConfirmationCrashes<S>(sim: Sim<S>, p: Peer<S>, checksum: int, input: Input)
    requires Active(p) && p.rb.me == 1 && p.rb.currentFrame == 0
    requires p.queue == [Confirmation(checksum, [])]
    ensures FixedStep(sim, p, input).Fault?
  {
    assert HandleHead(sim, Advanced(p)).Fault?;
  }

  lemma RunPrefix<S>(sim: Sim<S>, run: seq<Action>, n: nat)
    requires n < |run|
    ensures Run(sim, PastCurrent, run[..n + 1]) == Do(sim, Run(sim, PastCurrent, run[..n]), run[n])
    ensures n == 0 ==> Run(sim, PastCurrent, run[..n]) == Start(sim, PastCurrent)
  {
    assert run[..n + 1][..n] == run[..n];
  }

  /** The master after its first step, with the client's first packet in its queue. */
  function EarlyMaster<S>(sim: Sim<S>, blue: Input, red: Input): Outcome<S> {
    FixedStep(sim, Enqueue(FreshPeer(sim, 0, PastCurrent), InputPacket([FrameInput(red, 0)])), blue)
  }

  /** The client plays frame 0 and its packet arrives at the master. */
  lemma ClientFirst<S>(sim: Sim<S>, blue: Input, red: Input, red': Input)
    ensures FixedStep(sim, FreshPeer(sim, 1, PastCurrent), red).Continue?
    ensures var c := FixedStep(sim, FreshPeer(sim, 1, PastCurrent), red).peer;
            Run(sim, PastCurrent, EarlyRun(blue, red, red')[..2])
            == Running(Enqueue(FreshPeer(sim, 0, PastCurrent), InputPacket([FrameInput(red, 0)])), c, [], [red], 0, 0)
  {
    var run := EarlyRun(blue, red, red');
    FirstStep(sim, 1, red);
    RunPrefix(sim, run, 0);
    RunPrefix(sim, run, 1);
    hide FixedStep, Run;
    var c := FixedStep(sim, FreshPeer(sim, 1, PastCurrent), red).peer;
    assert Run(sim, PastCurrent, run[..1]) == Running(FreshPeer(sim, 0, PastCurrent), c, [], [red], 0, 0);
  }

  lemma {:induction false} EarlyStart<S>(sim: Sim<S>, blue: Input, red: Input, red': Input)
    ensures EarlyMaster(sim, blue, red).Continue? && FixedStep(sim, FreshPeer(sim, 1, PastCurrent), red).Continue?
    ensures Run(sim, PastCurrent, EarlyRun(blue, red, red')[..3])
         == Running(EarlyMaster(sim, blue, red).peer, FixedStep(sim, FreshPeer(sim, 1, PastCurrent), red).peer, [blue], [red], 0, 0)
  {
    hide FixedStep, Run;
    var run := EarlyRun(blue, red, red');
    ClientFirst(sim, blue, red, red');
    EarlyFirstStep(sim, red, blue);
    RunPrefix(sim, run, 2);
  }

  /** That run crashes for every simulation and all inputs: the confirmation was sent with an empty
      resend window, and the client reads its last entry. */
  lemma EarlyRunCrashes<S>(sim: Sim<S>, blue: Input, red: Input, red': Input)
    ensures Run(sim, PastCurrent, EarlyRun(blue, red, red')) == Crashed
  {
    hide FixedStep, Run;
    var run := EarlyRun(blue, red, red');
    EarlyStart(sim, blue, red, red');
    FirstStep(sim, 1, red);
    EarlyFirstStep(sim, red, blue);
    var m, c := EarlyMaster(sim, blue, red).peer, FixedStep(sim, FreshPeer(sim, 1, PastCurrent), red).peer;
    ReliableAppend([m.sent[0]], m.sent[1]);
    ReliableAppend([], m.sent[0]);
    assert m.sent == [m.sent[0]] + [m.sent[1]] && [m.sent[0]] == [] + [m.sent[0]];
    RunPrefix(sim, run, 3);
    EmptyConfirmationCrashes(sim, Enqueue(c, m.sent[0]), m.sent[0].checksum, red');
    RunPrefix(sim, run, 4);
    assert run[..5] == run;
  }
}
