/** A match: two peers and the network between them, as a state machine over fixed steps and deliveries. */
module SessionSpec {
  import opened Inputs
  import opened Simulation
  import opened RollbackSpec
  import opened PeerSpec

  /** Player 0 is the master, player 1 the client. `blue` and `red` are the inputs the two players have
      really given. Everything a peer sent stays in its log: an input packet of the log may be
      delivered at any time, any number of times, in any order, or never; the other packets are
      delivered once and in order, `toClient` and `toMaster` counting the delivered ones. A match is
      `Crashed` when a peer has read past the end of a container. */
  datatype Session<S> =
    | Running(master: Peer<S>, client: Peer<S>, blue: seq<Input>, red: seq<Input>, toClient: nat, toMaster: nat)
    | Crashed

  datatype Action =
    | Step(player: nat, input: Input)
    | DeliverInput(player: nat, position: nat)
    | DeliverReliable(player: nat)

  /** The packets of the reliable channel, in order. */
  function Reliable(packets: seq<Packet>): seq<Packet> {
    if packets == [] then []
    else
      var last := packets[|packets| - 1];
      Reliable(packets[..|packets| - 1]) + if last.InputPacket? then [] else [last]
  }

  function Start<S>(sim: Sim<S>, guard: Guard): Session<S> {
    Running(FreshPeer(sim, 0, guard), FreshPeer(sim, 1, guard), [], [], 0, 0)
  }

  function Enqueue<S>(p: Peer<S>, packet: Packet): Peer<S> {
    p.(queue := p.queue + [packet])
  }

  /** Can the peer do one more fixed step? */
  predicate Active<S>(p: Peer<S>) {
    !p.ended && Shaped(p.rb) && p.rb.currentFrame < GAME_FRAMES
  }

  /** The inputs of a player after a fixed step: the step after the last frame takes none. */
  function Given<S>(p: Peer<S>, own: seq<Input>, input: Input): seq<Input> {
    if p.rb.currentFrame + 1 >= GAME_FRAMES then own else own + [input]
  }

  /** The effect of an action; an action that is not possible has none. */
  function Do<S>(sim: Sim<S>, s: Session<S>, a: Action): Session<S> {
    if s.Crashed? then s
    else match a
      case Step(player, input) =>
        if player == 0 then
          if !Active(s.master) then s
          else
            var o := FixedStep(sim, s.master, input);
            if o.Fault? then Crashed
            else s.(master := o.peer, blue := Given(s.master, s.blue, input))
        else
          if !Active(s.client) then s
          else
            var o := FixedStep(sim, s.client, input);
            if o.Fault? then Crashed
            else s.(client := o.peer, red := Given(s.client, s.red, input))
      case DeliverInput(player, i) =>
        if player == 0 then
          if i < |s.client.sent| && s.client.sent[i].InputPacket?
          then s.(master := Enqueue(s.master, s.client.sent[i])) else s
        else
          if i < |s.master.sent| && s.master.sent[i].InputPacket?
          then s.(client := Enqueue(s.client, s.master.sent[i])) else s
      case DeliverReliable(player) =>
        if player == 0 then
          if s.toMaster < |Reliable(s.client.sent)|
          then s.(master := Enqueue(s.master, Reliable(s.client.sent)[s.toMaster]), toMaster := s.toMaster + 1) else s
        else
          if s.toClient < |Reliable(s.master.sent)|
          then s.(client := Enqueue(s.client, Reliable(s.master.sent)[s.toClient]), toClient := s.toClient + 1) else s
  }

  function Run<S>(sim: Sim<S>, guard: Guard, actions: seq<Action>): Session<S> {
    if actions == [] then Start(sim, guard)
    else Do(sim, Run(sim, guard, actions[..|actions| - 1]), actions[|actions| - 1])
  }

  // ----- being on time -----

  predicate EndsAtCurrentFrame<S>(p: Peer<S>, entries: seq<FrameInput>)
    requires entries != []
  {
    entries[|entries| - 1].frame == p.rb.currentFrame
  }

  /** The packet at the head of the queue does not make the peer confirm its current frame: it is no fresh
      input packet that ends at that frame, or the guard stops there. */
  predicate HeadOnTime<S>(p: Peer<S>) {
    || p.guard.AtCurrent?
    || p.queue == [] || !p.queue[0].InputPacket? || p.queue[0].entries == []
    || Stale(p.rb, p.queue[0].entries) || !EndsAtCurrentFrame(p, p.queue[0].entries)
  }

  /** So it is with every packet that is really handled, one after the other. */
  predicate HandledOnTime<S>(sim: Sim<S>, p: Peer<S>)
    requires WellFormed(p)
    decreases |p.queue|
  {
    p.queue == []
    || (HeadOnTime(p) && (HandleHead(sim, p).Continue? ==> HandledOnTime(sim, HandleHead(sim, p).peer)))
  }

  /** A fixed step of the master, if it handles packets at all, handles them on time. */
  predicate StepsOnTime<S>(sim: Sim<S>, m: Peer<S>) {
    Active(m) && Advanced(m).rb.currentFrame < GAME_FRAMES ==> HandledOnTime(sim, Advanced(m))
  }

  predicate PlayedOnTime<S>(sim: Sim<S>, guard: Guard, actions: seq<Action>) {
    actions == []
    || var before, a := Run(sim, guard, actions[..|actions| - 1]), actions[|actions| - 1];
       && PlayedOnTime(sim, guard, actions[..|actions| - 1])
       && (before.Running? && a.Step? && a.player == 0 ==> StepsOnTime(sim, before.master))
  }
}

module SessionInvariant {
  import opened Inputs
  import opened Simulation
  import opened RollbackSpec
  import opened RollbackLaws
  import opened PeerSpec
  import opened SessionSpec

  /** How many of its inputs a peer has dropped from its resend window. */
  function Dropped<S>(p: Peer<S>, own: seq<Input>): int {
    |own| - |p.window|
  }

  /** A resend window of `row` that reaches back to frame `bound` or further. */
  predicate WindowOf(entries: seq<FrameInput>, row: seq<Input>, bound: int) {
    && entries != []
    && 0 <= entries[0].frame <= bound
    && entries[0].frame + |entries| <= |row|
    && entries == Window(row, entries[0].frame, entries[0].frame + |entries|)
  }

  predicate InputsOk(packets: seq<Packet>, row: seq<Input>, bound: int) {
    forall i :: 0 <= i < |packets| && packets[i].InputPacket? ==> WindowOf(packets[i].entries, row, bound)
  }

  /** The confirmation of frame `k`: the checksum of the true game after it, and a window with it. */
  ghost predicate ConfirmationOk<S>(sim: Sim<S>, packet: Packet, k: nat, blue: seq<Input>, red: seq<Input>) {
    && packet.Confirmation?
    && k < |blue| && k < |red|
    && packet.checksum == sim.checksum(TruthFor(sim, 0, blue, red, k + 1))
    && WindowOf(packet.entries, blue, k)
    && k < packet.entries[0].frame + |packet.entries|
  }

  ghost predicate ConfirmationsOk<S>(sim: Sim<S>, confirmations: seq<Packet>, blue: seq<Input>, red: seq<Input>) {
    forall k :: 0 <= k < |confirmations| ==> ConfirmationOk(sim, confirmations[k], k, blue, red)
  }

  /** One peer: faithful, no checksum report so far, and its resend window is the contiguous tail of
      its inputs. */
  ghost predicate PeerOk<S>(sim: Sim<S>, me: int, p: Peer<S>, own: seq<Input>, other: seq<Input>) {
    && p.rb.me == me
    && Faithful(sim, p.rb, own, other)
    && p.errors == 0
    && |p.window| <= |own|
    && p.window == Window(own, |own| - |p.window|, |own|)
  }

  /** What the master has sent: its windows, and one confirmation for every confirmed frame. */
  ghost predicate MasterLog<S>(sim: Sim<S>, m: Peer<S>, blue: seq<Input>, red: seq<Input>, bound: int) {
    && InputsOk(m.sent, blue, bound)
    && |Reliable(m.sent)| == m.rb.frameToConfirm
    && ConfirmationsOk(sim, Reliable(m.sent), blue, red)
  }

  /** The counters of the two peers and the contents of the channels fit together. */
  ghost predicate Linked<S>(sim: Sim<S>, m: Peer<S>, c: Peer<S>, blue: seq<Input>, red: seq<Input>,
                            toClient: nat, toMaster: nat) {
    var confirmed := c.rb.frameToConfirm;
    && 0 <= Dropped(m, blue) <= confirmed == Dropped(c, red) && confirmed <= m.rb.frameToConfirm
    && InputsOk(c.queue, blue, confirmed)
    && InputsOk(c.sent, red, confirmed) && InputsOk(m.queue, red, confirmed)
    && MasterLog(sim, m, blue, red, confirmed)
    && confirmed <= toClient <= |Reliable(m.sent)|
    && Reliable(c.queue) == Reliable(m.sent)[confirmed..toClient]
    && |Reliable(c.sent)| == confirmed
    && (forall k :: 0 <= k < confirmed ==> Reliable(c.sent)[k] == Acknowledgement)
    && Dropped(m, blue) <= toMaster <= confirmed
    && Reliable(m.queue) == Reliable(c.sent)[Dropped(m, blue)..toMaster]
  }

  ghost predicate Inv<S>(sim: Sim<S>, m: Peer<S>, c: Peer<S>, blue: seq<Input>, red: seq<Input>,
                         toClient: nat, toMaster: nat) {
    && PeerOk(sim, 0, m, blue, red) && PeerOk(sim, 1, c, red, blue)
    && Linked(sim, m, c, blue, red, toClient, toMaster)
  }

  /** Between fixed steps every frame up to the current one has its local input. */
  predicate AtRest<S>(p: Peer<S>, own: seq<Input>) {
    p.ended || |own| == p.rb.currentFrame + 1
  }

  // ----- the channels -----

  lemma ReliableAppend(packets: seq<Packet>, packet: Packet)
    ensures Reliable(packets + [packet]) == Reliable(packets) + if packet.InputPacket? then [] else [packet]
  {
    assert (packets + [packet])[..|packets|] == packets;
  }

  lemma {:induction false} ReliablePop(packets: seq<Packet>)
    requires packets != []
    ensures Reliable(packets) == (if packets[0].InputPacket? then [] else [packets[0]]) + Reliable(packets[1..])
    decreases |packets|
  {
    var n := |packets|;
    if n > 1 {
      ReliablePop(packets[..n - 1]);
      assert packets[..n - 1][1..] == packets[1..][..n - 2];
    } else {
      assert packets[..n - 1] == [] && packets[1..] == [];
    }
  }

  lemma WindowGrows(entries: seq<FrameInput>, row: seq<Input>, bound: int, row': seq<Input>, bound': int)
    requires WindowOf(entries, row, bound) && bound <= bound' && |row| <= |row'| && row == row'[..|row|]
    ensures WindowOf(entries, row', bound')
  {
    var first, end := entries[0].frame, entries[0].frame + |entries|;
    forall i | 0 <= i < |entries| ensures entries[i] == Window(row', first, end)[i] {
      assert entries[i] == Window(row, first, end)[i];
      assert row[first + i] == row'[..|row|][first + i];
    }
  }

  lemma InputsGrow(packets: seq<Packet>, row: seq<Input>, bound: int, row': seq<Input>, bound': int)
    requires InputsOk(packets, row, bound) && bound <= bound' && |row| <= |row'| && row == row'[..|row|]
    ensures InputsOk(packets, row', bound')
  {
    forall i | 0 <= i < |packets| && packets[i].InputPacket? ensures WindowOf(packets[i].entries, row', bound') {
      WindowGrows(packets[i].entries, row, bound, row', bound');
    }
  }

  lemma ConfirmationsGrow<S>(sim: Sim<S>, confirmations: seq<Packet>, blue: seq<Input>, red: seq<Input>,
                             blue': seq<Input>, red': seq<Input>)
    requires ConfirmationsOk(sim, confirmations, blue, red)
    requires |blue| <= |blue'| && blue == blue'[..|blue|] && |red| <= |red'| && red == red'[..|red|]
    ensures ConfirmationsOk(sim, confirmations, blue', red')
  {
    forall k | 0 <= k < |confirmations| ensures ConfirmationOk(sim, confirmations[k], k, blue', red') {
      assert ConfirmationOk(sim, confirmations[k], k, blue, red);
      WindowGrows(confirmations[k].entries, blue, k, blue', k);
      assert forall f :: 0 <= f < k + 1 ==> blue[f] == blue'[..|blue|][f] && red[f] == red'[..|red|][f];
      TruthCongruent(sim, 0, k + 1, blue, red, blue', red');
    }
  }

  lemma WindowDrops(own: seq<Input>, first: nat)
    requires first < |own|
    ensures Window(own, first, |own|)[1..] == Window(own, first + 1, |own|)
  {
  }

  lemma WindowIsDeliverable<S>(r: RollbackState<S>, entries: seq<FrameInput>, other: seq<Input>, bound: int)
    requires WindowOf(entries, other, bound) && bound <= r.currentFrame && bound <= r.lastRemote + 1
    ensures entries != [] && entries[0].frame >= 0
    ensures Deliverable(r, entries, other, entries[0].frame, entries[0].frame + |entries|)
  {
  }

  /** A window that reaches back far enough can be taken, and leaves the peer in order. */
  lemma PeerReceives<S(!new)>(sim: Sim<S>, me: int, p: Peer<S>, entries: seq<FrameInput>,
                              own: seq<Input>, other: seq<Input>, bound: int)
    requires Symmetric(sim) && PeerOk(sim, me, p, own, other) && WellFormed(p) && p.rb.currentFrame == |own|
    requires WindowOf(entries, other, bound) && bound <= p.rb.currentFrame && bound <= p.rb.lastRemote + 1
    ensures Deliverable(p.rb, entries, other, entries[0].frame, entries[0].frame + |entries|)
    ensures Readable(p.rb, entries)
    ensures var rb := Receive(sim, p.rb, entries, 1 - me);
            && PeerOk(sim, me, p.(rb := rb), own, other)
            && rb.lastRemote == KnownAfter(p.rb, entries[0].frame + |entries|)
            && rb.currentFrame == p.rb.currentFrame && rb.frameToConfirm == p.rb.frameToConfirm && rb.me == me
  {
    hide Receive, Faithful, Deliverable, Readable, Window, Symmetric, WindowOf, KnownAfter;
    WindowIsDeliverable(p.rb, entries, other, bound);
    var first, last := entries[0].frame, entries[0].frame + |entries|;
    ReceiveFaithful(sim, p.rb, entries, own, other, first, last);
    ReceiveFields(sim, p.rb, entries, 1 - me);
  }
}
