/** A run in which everything works: the peers play in lockstep and the network loses nothing. It is on time, and
    every frame is confirmed on both sides one and two frames after it was played, whatever the players press. */
module Lockstep {
  import opened Inputs
  import opened Simulation
  import opened RollbackSpec
  import opened RollbackLaws
  import opened PeerSpec
  import opened SessionSpec
  import opened SessionInvariant
  import opened Agreement
  import opened Progress

  /** After both have played a frame, what they have sent last arrives, and what is new on the reliable channels. */
  function Arrivals<S>(s: Session<S>): seq<Action> {
    if s.Crashed? || s.client.sent == [] || s.master.sent == [] then []
    else [DeliverInput(0, |s.client.sent| - 1), DeliverInput(1, |s.master.sent| - 1), DeliverReliable(0), DeliverReliable(1)]
  }

  function Arrived<S>(sim: Sim<S>, s: Session<S>): Session<S> {
    if Arrivals(s) == [] then s
    else Do(sim, Do(sim, Do(sim, Do(sim, s, Arrivals(s)[0]), Arrivals(s)[1]), Arrivals(s)[2]), Arrivals(s)[3])
  }

  /** The actions of one more round. */
  function RoundActions<S>(sim: Sim<S>, guard: Guard, before: seq<Action>, blue: Input, red: Input): seq<Action> {
    var steps := before + [Step(1, red)] + [Step(0, blue)];
    steps + Arrivals(Run(sim, guard, steps))
  }

  /** The schedule of `n` rounds, the client first. */
  function Schedule<S>(sim: Sim<S>, guard: Guard, blue: seq<Input>, red: seq<Input>, n: nat): seq<Action>
    requires n <= |blue| && n <= |red|
  {
    if n == 0 then []
    else RoundActions(sim, guard, Schedule(sim, guard, blue, red, n - 1), blue[n - 1], red[n - 1])
  }

  /** The last frame known of the other player after `n` rounds. */
  function Known(n: nat): int { if n < 2 then -1 else n - 2 }

  predicate Even<S>(p: Peer<S>, me: int, n: nat) {
    && p.rb.me == me && Shaped(p.rb) && !p.ended && p.rb.currentFrame == n - 1 && p.rb.lastRemote == Known(n)
  }

  /** The input packet of the last round waits, and perhaps one more packet behind it. */
  predicate Waits(queue: seq<Packet>, n: nat, more: bool) {
    if n == 0 then queue == []
    else
      && |queue| == (if more then 2 else 1)
      && queue[0].InputPacket? && queue[0].entries != [] && Last(queue[0].entries) == n - 1
  }

  /** After `n` rounds the master has confirmed all frames but the last, the client all but the last two. */
  ghost predicate InStep<S>(s: Session<S>, n: nat) {
    && s.Running? && |s.blue| == |s.red| == n
    && Even(s.master, 0, n) && Even(s.client, 1, n)
    && s.master.rb.frameToConfirm == (if n < 1 then 0 else n - 1)
    && s.client.rb.frameToConfirm == (if n < 2 then 0 else n - 2)
    && s.toClient == |Reliable(s.master.sent)| && s.toMaster == |Reliable(s.client.sent)|
    && Waits(s.master.queue, n, n >= 3) && (n >= 3 ==> s.master.queue[1].Acknowledgement?)
    && Waits(s.client.queue, n, n >= 2)
    && (n >= 2 ==> s.client.queue[1].Confirmation? && s.client.queue[1].entries != [] && Last(s.client.queue[1].entries) < n)
  }

  // ----- what the packets of a round bring -----

  lemma ReadOne(a: Account, frame: int, packet: Packet)
    requires packet.Acknowledgement? || packet.entries != []
    requires packet.InputPacket? ==> Last(packet.entries) >= a.known
    ensures var b := Read(a, frame, [packet]);
            && b.packets == a.packets + 1 && b.reliable == a.reliable + (if packet.InputPacket? then 0 else 1)
            && b.known == (if packet.Acknowledgement? then a.known else Max(a.known, Min(Last(packet.entries), frame)))
            && b.confirmable == (if packet.InputPacket? then Max(a.confirmable, Min(Last(packet.entries) + 1, frame))
                                 else a.confirmable)
  {
    assert [packet][1..] == [];
  }

  lemma ClientReadsRound<S>(c: Peer<S>, n: nat)
    requires Even(c, 1, n) && Waits(c.queue, n, n >= 2)
    requires n >= 2 ==> c.queue[1].Confirmation? && c.queue[1].entries != [] && Last(c.queue[1].entries) < n
    ensures var a := Reading(Advanced(c));
            a.known == Known(n + 1) && a.packets == |c.queue| && a.reliable == (if n >= 2 then 1 else 0)
  {
    if n > 0 {
      ReadHead(AccountOf(c), n, c.queue);
      ReadOne(AccountOf(c), n, c.queue[0]);
      assert c.queue[..1] == [c.queue[0]];
      if n >= 2 {
        ReadOne(Read(AccountOf(c), n, c.queue[..1]), n, c.queue[1]);
        assert c.queue[1..] == [c.queue[1]];
      }
    }
  }

  lemma MasterReadsRound<S>(m: Peer<S>, n: nat)
    requires Even(m, 0, n) && Waits(m.queue, n, n >= 3) && (n >= 3 ==> m.queue[1].Acknowledgement?)
    requires m.rb.frameToConfirm == (if n < 1 then 0 else n - 1)
    ensures var a := Reading(Advanced(m));
            a.known == Known(n + 1) && a.packets == |m.queue| && a.reliable == (if n >= 3 then 1 else 0) && a.confirmable == n
  {
    if n > 0 {
      ReadHead(AccountOf(m), n, m.queue);
      ReadOne(AccountOf(m), n, m.queue[0]);
      assert m.queue[..1] == [m.queue[0]];
      if n >= 3 {
        ReadOne(Read(AccountOf(m), n, m.queue[..1]), n, m.queue[1]);
        assert m.queue[1..] == [m.queue[1]];
      }
    }
  }

  // ----- being on time -----

  lemma OnTimeFrom<S>(sim: Sim<S>, p: Peer<S>)
    requires WellFormed(p)
    requires p.queue != [] ==> HeadOnTime(p) && (HandleHead(sim, p).Continue? ==> HandledOnTime(sim, HandleHead(sim, p).peer))
    ensures HandledOnTime(sim, p)
  {
  }

  lemma RoundOnTime<S>(sim: Sim<S>, m: Peer<S>, n: nat)
    requires Even(m, 0, n) && Waits(m.queue, n, n >= 3) && (n >= 3 ==> m.queue[1].Acknowledgement?) && n < GAME_FRAMES
    ensures HandledOnTime(sim, Advanced(m))
  {
    hide HandleHead, HandledOnTime;
    var next := Advanced(m);
    if n > 0 {
      var o := HandleHead(sim, next);
      if o.Continue? {
        if n >= 3 {
          var o' := HandleHead(sim, o.peer);
          if o'.Continue? {
            OnTimeFrom(sim, o'.peer);
          }
        }
        OnTimeFrom(sim, o.peer);
      }
    }
    OnTimeFrom(sim, next);
  }

  // ----- a round -----

  lemma SentInputIsNotReliable(sent: seq<Packet>, packet: Packet)
    requires packet.InputPacket?
    ensures Reliable(sent + [packet]) == Reliable(sent)
  {
    ReliableAppend(sent, packet);
  }

  lemma AckedOnce(sent: seq<Packet>, n: nat)
    requires n <= 1
    ensures Reliable(sent + Acknowledgements(n)) == Reliable(sent) + Acknowledgements(n)
  {
    if n == 1 {
      ReliableAppend(sent, Acknowledgement);
      assert Acknowledgements(1) == [Acknowledgement];
    } else {
      assert sent + Acknowledgements(0) == sent;
    }
  }

  lemma ConfirmedOnceMore(sent: seq<Packet>, sent': seq<Packet>, n: nat)
    requires SentMore(sent, sent', n) && n <= 1
    ensures n == 0 ==> Reliable(sent') == Reliable(sent)
    ensures n == 1 ==> Reliable(sent') == Reliable(sent) + [sent'[|sent|]] && sent'[|sent|].Confirmation?
  {
    if n == 1 {
      assert sent' == sent + [sent'[|sent|]];
      ReliableAppend(sent, sent'[|sent|]);
    } else {
      assert sent' == sent;
    }
  }

  /** After the two steps of a round: both know one frame more, and the new packets have not arrived. */
  ghost predicate BeforeArrival<S>(s: Session<S>, n: nat) {
    && s.Running? && |s.blue| == |s.red| == n + 1
    && Even(s.master, 0, n + 1) && Even(s.client, 1, n + 1)
    && s.master.rb.frameToConfirm == n && s.client.rb.frameToConfirm == (if n < 1 then 0 else n - 1)
    && s.master.queue == [] && s.client.queue == []
    && EndsWithInput(s.client.sent, n) && EndsWithInput(s.master.sent, n)
    && |Reliable(s.client.sent)| == s.toMaster + (if n >= 2 then 1 else 0)
    && |Reliable(s.master.sent)| == s.toClient + (if n >= 1 then 1 else 0)
    && (n >= 2 ==> Reliable(s.client.sent)[s.toMaster].Acknowledgement?)
    && (n >= 1 ==> Reliable(s.master.sent)[s.toClient].Confirmation?)
  }

  predicate EndsWithInput(sent: seq<Packet>, frame: nat) {
    && sent != [] && var packet := sent[|sent| - 1];
       packet.InputPacket? && packet.entries != [] && Last(packet.entries) == frame
  }

  lemma KnowsIsShaped<S>(r: RollbackState<S>, other: seq<Input>)
    requires KnowsRemote(r, other)
    ensures Shaped(r)
  {
  }

  lemma ClientRound<S(!new)>(sim: Sim<S>, s: Session<S>, n: nat, red: Input)
    requires Symmetric(sim) && Safe(sim, s) && InStep(s, n) && n < GAME_FRAMES
    ensures var s' := Do(sim, s, Step(1, red));
            && s'.Running? && s' == s.(client := s'.client, red := s.red + [red])
            && Even(s'.client, 1, n + 1) && s'.client.queue == []
            && s'.client.rb.frameToConfirm == (if n < 1 then 0 else n - 1)
            && EndsWithInput(s'.client.sent, n)
            && Reliable(s'.client.sent) == Reliable(s.client.sent) + Acknowledgements(if n >= 2 then 1 else 0)
  {
    hide Safe, FixedStep, Reading, KnowsRemote, Reliable, Acknowledgements;
    ClientReadsRound(s.client, n);
    ClientStepsExactly(sim, s, red);
    KnowsIsShaped(Do(sim, s, Step(1, red)).client.rb, s.blue);
    var c, c', k := s.client, Do(sim, s, Step(1, red)).client, if n >= 2 then 1 else 0;
    AckedOnce(c.sent, k);
    SentInputIsNotReliable(c.sent + Acknowledgements(k), InputPacket(c'.window));
    assert c'.sent == c'.sent[..|c'.sent| - 1] + [InputPacket(c'.window)];
  }

  lemma MasterRound<S(!new)>(sim: Sim<S>, s: Session<S>, n: nat, blue: Input)
    requires Symmetric(sim) && Safe(sim, s) && s.Running? && n < GAME_FRAMES
    requires Even(s.master, 0, n) && Waits(s.master.queue, n, n >= 3) && (n >= 3 ==> s.master.queue[1].Acknowledgement?)
    requires s.master.rb.frameToConfirm == (if n < 1 then 0 else n - 1)
    ensures var s' := Do(sim, s, Step(0, blue));
            && s'.Running? && s' == s.(master := s'.master, blue := s.blue + [blue])
            && Even(s'.master, 0, n + 1) && s'.master.queue == [] && s'.master.rb.frameToConfirm == n
            && EndsWithInput(s'.master.sent, n)
            && (n == 0 ==> Reliable(s'.master.sent) == Reliable(s.master.sent))
            && (n >= 1 ==> |Reliable(s'.master.sent)| == |Reliable(s.master.sent)| + 1
                           && Reliable(s'.master.sent)[..|Reliable(s.master.sent)|] == Reliable(s.master.sent)
                           && Reliable(s'.master.sent)[|Reliable(s.master.sent)|].Confirmation?)
  {
    hide Safe, FixedStep, Reading, KnowsRemote, Reliable, HandledOnTime;
    MasterReadsRound(s.master, n);
    RoundOnTime(sim, s.master, n);
    MasterStepsExactly(sim, s, blue);
    KnowsIsShaped(Do(sim, s, Step(0, blue)).master.rb, s.red);
    var m, m' := s.master, Do(sim, s, Step(0, blue)).master;
    var sent := m'.sent[..|m'.sent| - 1];
    ConfirmedOnceMore(m.sent, sent, if n >= 1 then 1 else 0);
    SentInputIsNotReliable(sent, InputPacket(m'.window));
    assert m'.sent == sent + [InputPacket(m'.window)];
  }

  lemma TwoSteps<S(!new)>(sim: Sim<S>, s: Session<S>, n: nat, blue: Input, red: Input)
    requires Symmetric(sim) && Safe(sim, s) && InStep(s, n) && n < GAME_FRAMES
    ensures var s' := Do(sim, Do(sim, s, Step(1, red)), Step(0, blue));
            && Safe(sim, s') && BeforeArrival(s', n)
            && s'.blue == s.blue + [blue] && s'.red == s.red + [red]
    ensures StepsOnTime(sim, Do(sim, s, Step(1, red)).master)
  {
    hide Safe, Do, Reliable, HandledOnTime;
    ClientRound(sim, s, n, red);
    var s1 := Do(sim, s, Step(1, red));
    RoundOnTime(sim, s1.master, n);
    DoSafe(sim, s, Step(1, red));
    MasterRound(sim, s1, n, blue);
    DoSafe(sim, s1, Step(0, blue));
  }

  lemma ConfirmationBrings<S>(sim: Sim<S>, s: Session<S>, k: nat)
    requires Safe(sim, s) && k < |Reliable(s.master.sent)|
    ensures Reliable(s.master.sent)[k].Confirmation?
    ensures var entries := Reliable(s.master.sent)[k].entries; entries != [] && Last(entries) < |s.blue|
  {
    assert ConfirmationOk(sim, Reliable(s.master.sent)[k], k, s.blue, s.red);
  }

  /** The inputs have arrived. */
  ghost predicate InputsArrived<S>(s: Session<S>, s': Session<S>) {
    && s.Running? && s.client.sent != [] && s.master.sent != []
    && s' == s.(master := Enqueue(s.master, s.client.sent[|s.client.sent| - 1]),
                client := Enqueue(s.client, s.master.sent[|s.master.sent| - 1]))
  }

  lemma InputsArrive<S(!new)>(sim: Sim<S>, s: Session<S>, n: nat)
    requires Symmetric(sim) && Safe(sim, s) && BeforeArrival(s, n)
    ensures var s' := Do(sim, Do(sim, s, Arrivals(s)[0]), Arrivals(s)[1]);
            Safe(sim, s') && InputsArrived(s, s')
  {
    hide Safe, Reliable, FixedStep;
    DoSafe(sim, s, Arrivals(s)[0]);
    DoSafe(sim, Do(sim, s, Arrivals(s)[0]), Arrivals(s)[1]);
  }

  /** The rest completes the round. */
  lemma ReliableArrive<S(!new)>(sim: Sim<S>, s: Session<S>, s': Session<S>, n: nat)
    requires Symmetric(sim) && Safe(sim, s) && Safe(sim, s') && BeforeArrival(s, n) && InputsArrived(s, s')
    ensures var s'' := Do(sim, Do(sim, s', DeliverReliable(0)), DeliverReliable(1));
            Safe(sim, s'') && InStep(s'', n + 1) && s''.blue == s.blue && s''.red == s.red
  {
    hide Safe, Reliable, FixedStep;
    DoSafe(sim, s', DeliverReliable(0));
    DoSafe(sim, Do(sim, s', DeliverReliable(0)), DeliverReliable(1));
    if n >= 1 {
      ConfirmationBrings(sim, s, s.toClient);
    }
  }

  lemma ArrivalsComplete<S(!new)>(sim: Sim<S>, s: Session<S>, n: nat)
    requires Symmetric(sim) && Safe(sim, s) && BeforeArrival(s, n)
    ensures var s' := Arrived(sim, s);
            Safe(sim, s') && InStep(s', n + 1) && s'.blue == s.blue && s'.red == s.red
  {
    hide Safe, Do, BeforeArrival, InStep, InputsArrived;
    SomeArrivals(sim, s, n);
    InputsArrive(sim, s, n);
    ReliableArrive(sim, s, Do(sim, Do(sim, s, Arrivals(s)[0]), Arrivals(s)[1]), n);
  }

  // ----- the whole run -----

  lemma StartInStep<S>(sim: Sim<S>, guard: Guard)
    ensures InStep(Start(sim, guard), 0)
  {
  }

  lemma {:induction false} RunAll<S>(sim: Sim<S>, guard: Guard, actions: seq<Action>, more: seq<Action>)
    requires |more| == 4
    ensures Run(sim, guard, actions + more)
         == Do(sim, Do(sim, Do(sim, Do(sim, Run(sim, guard, actions), more[0]), more[1]), more[2]), more[3])
  {
    hide Do;
    RunOneMore(sim, guard, actions, more[0]);
    RunOneMore(sim, guard, actions + [more[0]], more[1]);
    RunOneMore(sim, guard, actions + [more[0]] + [more[1]], more[2]);
    RunOneMore(sim, guard, actions + [more[0]] + [more[1]] + [more[2]], more[3]);
    assert actions + [more[0]] + [more[1]] + [more[2]] + [more[3]] == actions + more;
  }

  lemma {:induction false} OnTimeWithArrivals<S>(sim: Sim<S>, guard: Guard, actions: seq<Action>, more: seq<Action>)
    requires PlayedOnTime(sim, guard, actions) && forall i :: 0 <= i < |more| ==> !more[i].Step?
    ensures PlayedOnTime(sim, guard, actions + more)
    decreases |more|
  {
    hide PlayedOnTime, Run;
    if more == [] {
      assert actions + more == actions;
    } else {
      var k := |more| - 1;
      OnTimeWithArrivals(sim, guard, actions, more[..k]);
      OnTimeBefore(sim, guard, actions + more[..k], more[k]);
      assert actions + more[..k] + [more[k]] == actions + more;
    }
  }

  lemma {:induction false} OneMoreRound<S(!new)>(sim: Sim<S>, guard: Guard, before: seq<Action>, n: nat, blue: Input, red: Input)
    requires Symmetric(sim) && PlayedOnTime(sim, guard, before) && n < GAME_FRAMES
    requires Safe(sim, Run(sim, guard, before)) && InStep(Run(sim, guard, before), n)
    ensures var s, actions := Run(sim, guard, before), RoundActions(sim, guard, before, blue, red);
            var s' := Run(sim, guard, actions);
            && PlayedOnTime(sim, guard, actions) && Safe(sim, s') && InStep(s', n + 1)
            && s'.blue == s.blue + [blue] && s'.red == s.red + [red]
  {
    hide PlayedOnTime, Run, Do, Safe, InStep, StepsOnTime, BeforeArrival, Arrivals, Arrived;
    var first, steps := before + [Step(1, red)], before + [Step(1, red)] + [Step(0, blue)];
    var s := Run(sim, guard, before);
    TwoSteps(sim, s, n, blue, red);
    RunOneMore(sim, guard, before, Step(1, red));
    RunOneMore(sim, guard, first, Step(0, blue));
    OnTimeBefore(sim, guard, before, Step(1, red));
    OnTimeBefore(sim, guard, first, Step(0, blue));
    var s2 := Run(sim, guard, steps);
    ArrivalsComplete(sim, s2, n);
    SomeArrivals(sim, s2, n);
    RunAll(sim, guard, steps, Arrivals(s2));
    OnTimeWithArrivals(sim, guard, steps, Arrivals(s2));
  }

  /** In lockstep with a network that loses nothing, the master confirms every frame but the last and the client every
      frame but the last two, for all inputs, and the master is always on time. */
  lemma {:induction false} LockstepConfirms<S(!new)>(sim: Sim<S>, guard: Guard, blue: seq<Input>, red: seq<Input>, n: nat)
    requires Symmetric(sim) && n <= |blue| && n <= |red| && n <= GAME_FRAMES
    ensures var actions := Schedule(sim, guard, blue, red, n);
            && PlayedOnTime(sim, guard, actions)
            && var s := Run(sim, guard, actions);
            && Safe(sim, s) && InStep(s, n) && s.blue == blue[..n] && s.red == red[..n]
    decreases n
  {
    hide PlayedOnTime, Run, Safe, InStep, RoundActions;
    if n == 0 {
      StartSafe(sim, guard);
      StartInStep(sim, guard);
      NoActions(sim, guard);
    } else {
      LockstepConfirms(sim, guard, blue, red, n - 1);
      OneMoreRound(sim, guard, Schedule(sim, guard, blue, red, n - 1), n - 1, blue[n - 1], red[n - 1]);
      assert blue[..n] == blue[..n - 1] + [blue[n - 1]] && red[..n] == red[..n - 1] + [red[n - 1]];
    }
  }

  lemma NoActions<S>(sim: Sim<S>, guard: Guard)
    ensures PlayedOnTime(sim, guard, []) && Run(sim, guard, []) == Start(sim, guard)
  {
  }

  lemma SomeArrivals<S>(sim: Sim<S>, s: Session<S>, n: nat)
    requires BeforeArrival(s, n)
    ensures |Arrivals(s)| == 4 && forall i :: 0 <= i < 4 ==> !Arrivals(s)[i].Step?
    ensures Arrived(sim, s) == Do(sim, Do(sim, Do(sim, Do(sim, s, Arrivals(s)[0]), Arrivals(s)[1]), Arrivals(s)[2]), Arrivals(s)[3])
  {
    hide Do;
  }
}
