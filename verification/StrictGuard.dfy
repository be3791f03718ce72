/** With a guard that stops at the current frame already, no schedule of packets and steps has to be
    excluded: the master is always on time. */
module StrictGuard {
  import opened Inputs
  import opened Simulation
  import opened PeerSpec
  import opened SessionSpec
  import opened Agreement

  lemma {:induction false} AlwaysHandledOnTime<S>(sim: Sim<S>, p: Peer<S>)
    requires WellFormed(p) && p.guard.AtCurrent?
    ensures HandledOnTime(sim, p)
    decreases |p.queue|
  {
    hide HandleHead;
    if p.queue != [] && HandleHead(sim, p).Continue? {
      AlwaysHandledOnTime(sim, HandleHead(sim, p).peer);
    }
  }

  lemma GuardKeptByStep<S>(sim: Sim<S>, p: Peer<S>, input: Input)
    requires Active(p)
    ensures !FixedStep(sim, p, input).Fault? ==> FixedStep(sim, p, input).peer.guard == p.guard
  {
    hide HandleAll;
  }

  ghost predicate Guarded<S>(s: Session<S>, guard: Guard) {
    s.Running? ==> s.master.guard == guard && s.client.guard == guard
  }

  lemma GuardKeptByAction<S>(sim: Sim<S>, s: Session<S>, guard: Guard, a: Action)
    requires Guarded(s, guard)
    ensures Guarded(Do(sim, s, a), guard)
  {
    hide FixedStep, Reliable;
    if s.Running? && a.Step? {
      if a.player == 0 {
        if Active(s.master) {
          GuardKeptByStep(sim, s.master, a.input);
        }
      } else if Active(s.client) {
        GuardKeptByStep(sim, s.client, a.input);
      }
    }
  }

  /** Both peers keep their guard. */
  lemma {:induction false} GuardKept<S>(sim: Sim<S>, guard: Guard, actions: seq<Action>)
    ensures Guarded(Run(sim, guard, actions), guard)
    decreases |actions|
  {
    hide Do;
    if actions != [] {
      var before := actions[..|actions| - 1];
      GuardKept(sim, guard, before);
      GuardKeptByAction(sim, Run(sim, guard, before), guard, actions[|actions| - 1]);
    }
  }

  lemma {:induction false} AlwaysPlayedOnTime<S>(sim: Sim<S>, actions: seq<Action>)
    ensures PlayedOnTime(sim, AtCurrent, actions)
    decreases |actions|
  {
    hide Run, HandledOnTime;
    if actions != [] {
      var before := actions[..|actions| - 1];
      AlwaysPlayedOnTime(sim, before);
      GuardKept(sim, AtCurrent, before);
      var s := Run(sim, AtCurrent, before);
      if s.Running? && Active(s.master) && Advanced(s.master).rb.currentFrame < GAME_FRAMES {
        AlwaysHandledOnTime(sim, Advanced(s.master));
      }
    }
  }

  /** Every run is safe, agrees, shows exact replays and keeps its windows. */
  lemma StrictGuardIsSafe<S(!new)>(sim: Sim<S>, actions: seq<Action>)
    requires Symmetric(sim)
    ensures var s := Run(sim, AtCurrent, actions);
            Agreed(sim, s) && ShowsReplay(sim, s) && WindowsReach(s)
  {
    AlwaysPlayedOnTime(sim, actions);
    TwoPeersAgree(sim, AtCurrent, actions);
    SpeculationIsExact(sim, AtCurrent, actions);
    ResendWindows(sim, AtCurrent, actions);
  }
}
