/** Being on time is exactly what agreement needs: in any state that a run on time has reached, the next
    fixed step of the master agrees for every local input if and only if it handles its packets on time, or
    no input matters in that frame. */
module OnTimeExactly {
  import opened Inputs
  import opened Simulation
  import opened RollbackSpec
  import opened RollbackLaws
  import opened PeerSpec
  import opened SessionSpec
  import opened SessionInvariant
  import opened MasterSteps
  import opened Agreement
  import opened EarlyConfirmation

  // ----- the packets behind an early one -----

  /** A master that has confirmed its current frame `n` early, with the rest of its queue before it. */
  ghost predicate AfterEarly<S>(m: Peer<S>, n: nat, red: seq<Input>, bound: int) {
    && WellFormed(m) && m.rb.me == 0 && m.guard.PastCurrent?
    && m.rb.currentFrame == m.rb.lastRemote == n < |red| && m.rb.frameToConfirm == n + 1 && bound <= n
    && InputsOk(m.queue, red, bound) && |Reliable(m.queue)| <= |m.window|
  }

  /** A further input packet neither fills in nor confirms anything. */
  lemma MoreInput<S>(sim: Sim<S>, m: Peer<S>, entries: seq<FrameInput>, n: nat, red: seq<Input>, bound: int)
    requires AfterEarly(m, n, red, bound) && WindowOf(entries, red, bound) && !Stale(m.rb, entries)
    ensures var o := HandleInput(sim, m, entries);
            && o.Continue? && o.peer == m.(rb := o.peer.rb)
            && o.peer.rb.me == 0 && o.peer.rb.confirmed == m.rb.confirmed
            && o.peer.rb.currentFrame == o.peer.rb.lastRemote == n && o.peer.rb.frameToConfirm == n + 1
  {
    hide InputsOk, Reliable, FilledRow, Replay, MustRollback;
    var first, last := entries[0].frame, entries[0].frame + |entries|;
    WindowEnds(entries, red, bound);
    DeliverableIsReadable(m.rb, entries, red, first, last);
    ReceiveFields(sim, m.rb, entries, 1);
    NothingNewer(sim, m.rb, entries, red, first, last);
    NothingToConfirm(sim, m.(rb := Receive(sim, m.rb, entries, 1)), entries, red, first, last);
  }

  lemma NothingNewer<S>(sim: Sim<S>, r: RollbackState<S>, entries: seq<FrameInput>, red: seq<Input>, first: nat, last: nat)
    requires Shaped(r) && 0 <= r.currentFrame == r.lastRemote < GAME_FRAMES && Deliverable(r, entries, red, first, last)
    ensures Readable(r, entries) && Receive(sim, r, entries, 1).lastRemote == r.lastRemote
  {
    DeliverableIsReadable(r, entries, red, first, last);
  }

  lemma NothingToConfirm<S>(sim: Sim<S>, p: Peer<S>, entries: seq<FrameInput>, red: seq<Input>, first: nat, last: nat)
    requires WellFormed(p) && p.guard.PastCurrent? && first < last <= |red| && entries == Window(red, first, last)
    requires first <= p.rb.currentFrame < last && p.rb.frameToConfirm == p.rb.currentFrame + 1
    ensures SendConfirmations(sim, p, entries) == Continue(p)
  {
    FindInWindow(red, first, last, p.rb.frameToConfirm);
    FindInWindow(red, first, last, p.rb.currentFrame);
  }

  lemma NextOfQueue<S>(sim: Sim<S>, m: Peer<S>, n: nat, red: seq<Input>, bound: int)
    requires AfterEarly(m, n, red, bound) && m.queue != []
    ensures var o := HandleHead(sim, m);
            && !o.Fault? && o.peer.rb.confirmed == m.rb.confirmed && o.peer.rb.frameToConfirm == n + 1
            && (o.Continue? ==> AfterEarly(o.peer, n, red, bound))
  {
    hide HandleInput, WindowOf;
    ReliablePop(m.queue);
    if m.queue[0].InputPacket? {
      var entries := m.queue[0].entries;
      assert WindowOf(entries, red, bound);
      WindowEnds(entries, red, bound);
      if Stale(m.rb, entries) {
        StaleStops(sim, m, entries);
      } else {
        MoreInput(sim, m, entries, n, red, bound);
      }
    }
  }

  lemma StaleStops<S>(sim: Sim<S>, m: Peer<S>, entries: seq<FrameInput>)
    requires WellFormed(m) && entries != [] && Stale(m.rb, entries)
    ensures HandleInput(sim, m, entries) == Stop(m)
  {
  }

  lemma {:induction false} RestOfQueue<S>(sim: Sim<S>, m: Peer<S>, n: nat, red: seq<Input>, bound: int)
    requires AfterEarly(m, n, red, bound)
    ensures var o := HandleAll(sim, m);
            !o.Fault? && o.peer.rb.confirmed == m.rb.confirmed && o.peer.rb.frameToConfirm == n + 1
    decreases |m.queue|
  {
    hide AfterEarly, HandleHead;
    SomeWellFormed(m, n, red, bound);
    if m.queue != [] {
      NextOfQueue(sim, m, n, red, bound);
      if HandleHead(sim, m).Continue? {
        RestOfQueue(sim, HandleHead(sim, m).peer, n, red, bound);
      }
    }
  }

  lemma SomeWellFormed<S>(m: Peer<S>, n: nat, red: seq<Input>, bound: int)
    requires AfterEarly(m, n, red, bound)
    ensures WellFormed(m) && m.rb.frameToConfirm == n + 1
  {
  }

  // ----- one fixed step of the master -----

  /** The state after the master has confirmed the frame it is about to play. */
  ghost predicate HasConfirmedEarly<S>(sim: Sim<S>, m: Peer<S>, blue: seq<Input>, red: seq<Input>) {
    && |blue| < |red| && m.rb.frameToConfirm == |blue| + 1
    && m.rb.confirmed == sim.update(0, Truth(sim, blue, red, |blue|), NO_INPUT, red[|blue|])
  }

  ghost predicate HasConfirmedTruth<S>(sim: Sim<S>, m: Peer<S>, blue: seq<Input>, red: seq<Input>) {
    && 0 <= m.rb.frameToConfirm <= |blue| && m.rb.frameToConfirm <= |red|
    && m.rb.confirmed == Truth(sim, blue, red, m.rb.frameToConfirm)
  }

  lemma EarlyHead<S(!new)>(sim: Sim<S>, m: Peer<S>, c: Peer<S>, blue: seq<Input>, red: seq<Input>,
                           toClient: nat, toMaster: nat)
    requires Symmetric(sim) && Inv(sim, m, c, blue, red, toClient, toMaster)
    requires WellFormed(m) && m.rb.currentFrame == |blue| && !HeadOnTime(m)
    ensures var o := HandleHead(sim, m);
            o.Continue? && HasConfirmedEarly(sim, o.peer, blue, red) && AfterEarly(o.peer, |blue|, red, c.rb.frameToConfirm)
  {
    hide Faithful, HandleInput, ConfirmationsOk, Replay;
    var entries, bound := m.queue[0].entries, c.rb.frameToConfirm;
    HeadIsFacing(sim, m, c, blue, red, toClient, toMaster);
    ConfirmedEarly(sim, m, entries, blue, red, bound);
    ReliablePop(m.queue);
    ConfirmedAreKnown(sim, m, blue, red);
  }

  /** Handling the queue confirms true games when it is done on time, and the current frame early when not. */
  lemma {:induction false} HandleAllExactly<S(!new)>(sim: Sim<S>, m: Peer<S>, c: Peer<S>, blue: seq<Input>, red: seq<Input>,
                                                     toClient: nat, toMaster: nat)
    requires Symmetric(sim) && Inv(sim, m, c, blue, red, toClient, toMaster)
    requires WellFormed(m) && m.rb.currentFrame == |blue|
    ensures var o := HandleAll(sim, m);
            && !o.Fault?
            && if HandledOnTime(sim, m) then HasConfirmedTruth(sim, o.peer, blue, red) else HasConfirmedEarly(sim, o.peer, blue, red)
    decreases |m.queue|
  {
    hide HeadOnTime, HandleHead, AfterEarly, Linked, Truth;
    ConfirmedAreKnown(sim, m, blue, red);
    if m.queue != [] {
      var o := HandleHead(sim, m);
      if HeadOnTime(m) {
        MasterHandles(sim, m, c, blue, red, toClient, toMaster);
        ConfirmedAreKnown(sim, o.peer, blue, red);
        if o.Continue? {
          HandleAllExactly(sim, o.peer, c, blue, red, toClient, toMaster);
        }
      } else {
        EarlyHead(sim, m, c, blue, red, toClient, toMaster);
        RestOfQueue(sim, o.peer, |blue|, red, c.rb.frameToConfirm);
      }
    }
  }

  /** Whatever local input the frame gets, the confirmed game is the true one. */
  ghost predicate TrueForAllInputs<S(!new)>(sim: Sim<S>, m: Peer<S>, blue: seq<Input>, red: seq<Input>) {
    && 0 <= m.rb.frameToConfirm <= |blue| + 1 && m.rb.frameToConfirm <= |red|
    && forall input: Input :: m.rb.confirmed == Truth(sim, blue + [input], red, m.rb.frameToConfirm)
  }

  lemma TruthForAll<S(!new)>(sim: Sim<S>, m: Peer<S>, blue: seq<Input>, red: seq<Input>)
    requires HasConfirmedTruth(sim, m, blue, red)
    ensures TrueForAllInputs(sim, m, blue, red)
  {
    forall input: Input ensures m.rb.confirmed == Truth(sim, blue + [input], red, m.rb.frameToConfirm) {
      TruthCongruent(sim, 0, m.rb.frameToConfirm, blue, red, blue + [input], red);
    }
  }

  lemma EarlyForAll<S(!new)>(sim: Sim<S>, m: Peer<S>, blue: seq<Input>, red: seq<Input>)
    requires HasConfirmedEarly(sim, m, blue, red)
    ensures TrueForAllInputs(sim, m, blue, red) <==> !InputMatters(sim, Truth(sim, blue, red, |blue|), red[|blue|])
  {
    var s := Truth(sim, blue, red, |blue|);
    forall input: Input ensures Truth(sim, blue + [input], red, |blue| + 1) == sim.update(0, s, input, red[|blue|]) {
      TruthCongruent(sim, 0, |blue|, blue, red, blue + [input], red);
    }
  }

  /** Does an input of the blue player matter in its next frame? */
  ghost predicate NextInputMatters<S(!new)>(sim: Sim<S>, blue: seq<Input>, red: seq<Input>) {
    |blue| < |red| && InputMatters(sim, Truth(sim, blue, red, |blue|), red[|blue|])
  }

  /** Handling the whole queue agrees for every local input if and only if it is done on time or the input
      does not matter. */
  lemma QueueExactlyOnTime<S(!new)>(sim: Sim<S>, m: Peer<S>, c: Peer<S>, blue: seq<Input>, red: seq<Input>,
                                    toClient: nat, toMaster: nat)
    requires Symmetric(sim) && Inv(sim, m, c, blue, red, toClient, toMaster)
    requires WellFormed(m) && m.rb.currentFrame == |blue|
    ensures !HandleAll(sim, m).Fault?
    ensures TrueForAllInputs(sim, HandleAll(sim, m).peer, blue, red)
            <==> HandledOnTime(sim, m) || !NextInputMatters(sim, blue, red)
  {
    hide Inv, HandleAll, HandledOnTime, TrueForAllInputs, InputMatters, HasConfirmedTruth;
    HandleAllExactly(sim, m, c, blue, red, toClient, toMaster);
    var m' := HandleAll(sim, m).peer;
    if HandledOnTime(sim, m) {
      TruthForAll(sim, m', blue, red);
    } else {
      EarlyForAll(sim, m', blue, red);
    }
  }

  // ----- runs -----

  /** The match after one more fixed step of the master. */
  function PlayedOn<S>(sim: Sim<S>, actions: seq<Action>, input: Input): Session<S> {
    Run(sim, PastCurrent, actions + [Step(0, input)])
  }

  ghost predicate MasterAgrees<S>(sim: Sim<S>, s: Session<S>) {
    && s.Running?
    && 0 <= s.master.rb.frameToConfirm <= |s.blue| && s.master.rb.frameToConfirm <= |s.red|
    && s.master.rb.confirmed == Truth(sim, s.blue, s.red, s.master.rb.frameToConfirm)
  }

  /** If the run goes on with a step of the master that handles packets, that step agrees for every input. */
  ghost predicate GoesOnAgreeing<S(!new)>(sim: Sim<S>, before: seq<Action>, a: Action) {
    var s := Run(sim, PastCurrent, before);
    s.Running? && a.Step? && a.player == 0 && Active(s.master) && Advanced(s.master).rb.currentFrame < GAME_FRAMES ==>
      forall input: Input :: MasterAgrees(sim, PlayedOn(sim, before, input))
  }

  lemma StepIs<S>(sim: Sim<S>, actions: seq<Action>, input: Input)
    requires var s := Run(sim, PastCurrent, actions);
             s.Running? && Active(s.master) && Advanced(s.master).rb.currentFrame < GAME_FRAMES
    requires !HandleAll(sim, Advanced(Run(sim, PastCurrent, actions).master)).Fault?
    ensures var s, s' := Run(sim, PastCurrent, actions), PlayedOn(sim, actions, input);
            var m := HandleAll(sim, Advanced(s.master)).peer;
            && s'.Running? && s'.blue == s.blue + [input] && s'.red == s.red
            && s'.master.rb.confirmed == m.rb.confirmed && s'.master.rb.frameToConfirm == m.rb.frameToConfirm
  {
    assert (actions + [Step(0, input)])[..|actions|] == actions;
    hide Run, HandleAll;
  }

  /** After any run on time, the master's next fixed step agrees for every local input if and only if it
      handles its packets on time, or no input matters in that frame. */
  lemma RunExactlyOnTime<S(!new)>(sim: Sim<S>, actions: seq<Action>)
    requires Symmetric(sim) && PlayedOnTime(sim, PastCurrent, actions)
    ensures var s := Run(sim, PastCurrent, actions);
            s.Running?
            && (Active(s.master) && Advanced(s.master).rb.currentFrame < GAME_FRAMES ==>
                  ((forall input: Input :: MasterAgrees(sim, PlayedOn(sim, actions, input)))
                   <==> StepsOnTime(sim, s.master) || !NextInputMatters(sim, s.blue, s.red)))
  {
    RunSafe(sim, PastCurrent, actions);
    var s := Run(sim, PastCurrent, actions);
    if Active(s.master) && Advanced(s.master).rb.currentFrame < GAME_FRAMES {
      StepExactlyOnTime(sim, actions);
    }
  }

  lemma StepExactlyOnTime<S(!new)>(sim: Sim<S>, actions: seq<Action>)
    requires Symmetric(sim) && Safe(sim, Run(sim, PastCurrent, actions))
    requires var s := Run(sim, PastCurrent, actions);
             Active(s.master) && Advanced(s.master).rb.currentFrame < GAME_FRAMES
    ensures var s := Run(sim, PastCurrent, actions);
            (forall input: Input :: MasterAgrees(sim, PlayedOn(sim, actions, input)))
            <==> HandledOnTime(sim, Advanced(s.master)) || !NextInputMatters(sim, s.blue, s.red)
  {
    hide Run, HandleAll, HandledOnTime, Linked, PeerOk, NextInputMatters, Truth, PlayedOn;
    var s := Run(sim, PastCurrent, actions);
    var m := Advanced(s.master);
    SafeAtRest(sim, s);
    AdvancedInv(sim, s);
    QueueExactlyOnTime(sim, m, s.client, s.blue, s.red, s.toClient, s.toMaster);
    forall input: Input
      ensures MasterAgrees(sim, PlayedOn(sim, actions, input)) <==>
              && 0 <= HandleAll(sim, m).peer.rb.frameToConfirm <= |s.blue| + 1
              && HandleAll(sim, m).peer.rb.frameToConfirm <= |s.red|
              && HandleAll(sim, m).peer.rb.confirmed
                 == Truth(sim, s.blue + [input], s.red, HandleAll(sim, m).peer.rb.frameToConfirm)
    {
      StepIs(sim, actions, input);
    }
  }

  lemma SafeAtRest<S>(sim: Sim<S>, s: Session<S>)
    requires Safe(sim, s) && Active(s.master)
    ensures |s.blue| == s.master.rb.currentFrame + 1 && s.master.rb.currentFrame >= -1
  {
  }

  lemma AdvancedInv<S>(sim: Sim<S>, s: Session<S>)
    requires Safe(sim, s) && |s.blue| == s.master.rb.currentFrame + 1
    ensures Inv(sim, Advanced(s.master), s.client, s.blue, s.red, s.toClient, s.toMaster)
  {
    MasterEnds(sim, s.master, s.client, s.blue, s.red, s.toClient, s.toMaster, s.master.ended);
  }

  /** A step that is not on time has the client's input for its frame. */
  lemma EarlyNeedsClientInput<S(!new)>(sim: Sim<S>, actions: seq<Action>)
    requires Symmetric(sim) && PlayedOnTime(sim, PastCurrent, actions)
    requires Run(sim, PastCurrent, actions).Running? && !StepsOnTime(sim, Run(sim, PastCurrent, actions).master)
    ensures var s := Run(sim, PastCurrent, actions); |s.blue| < |s.red|
  {
    hide Run, HandleAll, HandledOnTime, Linked, PeerOk, Truth;
    RunSafe(sim, PastCurrent, actions);
    var s := Run(sim, PastCurrent, actions);
    SafeAtRest(sim, s);
    AdvancedInv(sim, s);
    HandleAllExactly(sim, Advanced(s.master), s.client, s.blue, s.red, s.toClient, s.toMaster);
  }
}
