/** Every step of the client keeps the invariant. */
module ClientSteps {
  import opened Inputs
  import opened Simulation
  import opened RollbackSpec
  import opened RollbackLaws
  import opened PeerSpec
  import opened SessionSpec
  import opened SessionInvariant

  /** The client's half of the channels after an input packet has left its queue. */
  lemma LinkedToReceivingClient<S>(sim: Sim<S>, m: Peer<S>, c: Peer<S>, c': Peer<S>, blue: seq<Input>, red: seq<Input>,
                                   toClient: nat, toMaster: nat)
    requires Linked(sim, m, c, blue, red, toClient, toMaster)
    requires c.queue != [] && c.queue[0].InputPacket? && c'.queue == c.queue[1..]
    requires c'.sent == c.sent && c'.window == c.window && c'.rb.frameToConfirm == c.rb.frameToConfirm
    ensures Linked(sim, m, c', blue, red, toClient, toMaster)
  {
    ReliablePop(c.queue);
  }

  lemma ClientTakesInput<S(!new)>(sim: Sim<S>, m: Peer<S>, c: Peer<S>, blue: seq<Input>, red: seq<Input>,
                                  toClient: nat, toMaster: nat)
    requires Symmetric(sim) && Inv(sim, m, c, blue, red, toClient, toMaster)
    requires WellFormed(c) && c.rb.currentFrame == |red|
    requires c.queue != [] && c.queue[0].InputPacket?
    requires c.queue[0].entries != [] && !Stale(c.rb, c.queue[0].entries)
    ensures var o := HandleHead(sim, c);
            o.Continue? && Inv(sim, m, o.peer, blue, red, toClient, toMaster) && o.peer.rb.currentFrame == |red|
  {
    var entries := c.queue[0].entries;
    assert WindowOf(entries, blue, c.rb.frameToConfirm);
    PeerReceives(sim, 1, c, entries, red, blue, c.rb.frameToConfirm);
    var c' := c.(rb := Receive(sim, c.rb, entries, 0), queue := c.queue[1..]);
    assert HandleHead(sim, c) == Continue(c');
    LinkedToReceivingClient(sim, m, c, c', blue, red, toClient, toMaster);
  }

  /** The next confirmation in the client's queue is the one of the frame it has to confirm. */
  lemma NextConfirmation<S>(sim: Sim<S>, m: Peer<S>, c: Peer<S>, blue: seq<Input>, red: seq<Input>,
                            toClient: nat, toMaster: nat)
    requires Linked(sim, m, c, blue, red, toClient, toMaster)
    requires c.queue != [] && !c.queue[0].InputPacket?
    ensures c.rb.frameToConfirm < toClient
    ensures ConfirmationOk(sim, c.queue[0], c.rb.frameToConfirm, blue, red)
    ensures Reliable(c.queue[1..]) == Reliable(m.sent)[c.rb.frameToConfirm + 1..toClient]
  {
    ReliablePop(c.queue);
    var k := c.rb.frameToConfirm;
    assert Reliable(c.queue)[0] == Reliable(m.sent)[k];
    assert Reliable(c.queue[1..]) == Reliable(c.queue)[1..];
  }

  /** The inputs that come with a confirmation fill in what is missing for it. */
  lemma TakeConfirmedOk<S(!new)>(sim: Sim<S>, c: Peer<S>, entries: seq<FrameInput>, blue: seq<Input>, red: seq<Input>)
    requires Symmetric(sim) && PeerOk(sim, 1, c, red, blue) && WellFormed(c) && c.rb.currentFrame == |red|
    requires c.rb.frameToConfirm < |red| && WindowOf(entries, blue, c.rb.frameToConfirm)
    requires c.rb.frameToConfirm < entries[0].frame + |entries|
    ensures var o := TakeConfirmed(sim, c, entries);
            && o.Continue? && o.peer == c.(rb := o.peer.rb)
            && PeerOk(sim, 1, o.peer, red, blue)
            && o.peer.rb.currentFrame == c.rb.currentFrame && o.peer.rb.frameToConfirm == c.rb.frameToConfirm
            && o.peer.rb.frameToConfirm <= o.peer.rb.lastRemote
  {
    var first, last := entries[0].frame, entries[0].frame + |entries|;
    assert entries[|entries| - 1].frame == last - 1;
    if c.rb.lastRemote < last - 1 {
      PeerReceives(sim, 1, c, entries, red, blue, c.rb.frameToConfirm);
    }
  }

  /** Confirming with both inputs known gives the master's checksum, and there is an input to drop. */
  lemma ConfirmKeeps<S>(sim: Sim<S>, r: RollbackState<S>)
    requires Shaped(r) && r.frameToConfirm < GAME_FRAMES
    ensures Confirm(sim, r).me == r.me
  {
  }

  lemma ConfirmTaken<S(!new)>(sim: Sim<S>, c: Peer<S>, packet: Packet, blue: seq<Input>, red: seq<Input>)
    requires Symmetric(sim) && PeerOk(sim, 1, c, red, blue) && c.rb.frameToConfirm <= c.rb.lastRemote
    requires ConfirmationOk(sim, packet, c.rb.frameToConfirm, blue, red) && Dropped(c, red) == c.rb.frameToConfirm
    ensures ConfirmChecksum(sim, c.rb) == packet.checksum && c.window != []
    ensures PeerOk(sim, 1, c.(rb := Confirm(sim, c.rb), sent := c.sent + [Acknowledgement], window := c.window[1..]), red, blue)
  {
    hide Symmetric, Truth, Speculation, Confirm, ConfirmChecksum, Window;
    ConfirmFaithful(sim, c.rb, red, blue);
    ConfirmKeeps(sim, c.rb);
    var dropped := Dropped(c, red);
    WindowDrops(red, dropped);
  }

  lemma HandleConfirmationOk<S(!new)>(sim: Sim<S>, c: Peer<S>, packet: Packet, blue: seq<Input>, red: seq<Input>)
    requires Symmetric(sim) && PeerOk(sim, 1, c, red, blue) && WellFormed(c) && c.rb.currentFrame == |red|
    requires ConfirmationOk(sim, packet, c.rb.frameToConfirm, blue, red) && Dropped(c, red) == c.rb.frameToConfirm
    ensures var o := HandleConfirmation(sim, c, packet.checksum, packet.entries);
            && o.Continue? && PeerOk(sim, 1, o.peer, red, blue)
            && o.peer.sent == c.sent + [Acknowledgement] && c.window != [] && o.peer.window == c.window[1..]
            && o.peer.rb.frameToConfirm == c.rb.frameToConfirm + 1 && o.peer.rb.currentFrame == c.rb.currentFrame
  {
    TakeConfirmedOk(sim, c, packet.entries, blue, red);
    var taken := TakeConfirmed(sim, c, packet.entries).peer;
    ConfirmTaken(sim, taken, packet, blue, red);
  }

  /** The client's counters move on together when it has confirmed a frame. */
  lemma LinkedToConfirmedClient<S>(sim: Sim<S>, m: Peer<S>, c: Peer<S>, c': Peer<S>, blue: seq<Input>, red: seq<Input>,
                                   toClient: nat, toMaster: nat)
    requires Linked(sim, m, c, blue, red, toClient, toMaster)
    requires c.queue != [] && !c.queue[0].InputPacket? && c'.queue == c.queue[1..]
    requires c'.sent == c.sent + [Acknowledgement] && c.window != [] && c'.window == c.window[1..]
    requires c'.rb.frameToConfirm == c.rb.frameToConfirm + 1
    ensures Linked(sim, m, c', blue, red, toClient, toMaster)
  {
    NextConfirmation(sim, m, c, blue, red, toClient, toMaster);
    ReliableAppend(c.sent, Acknowledgement);
    assert Reliable(c'.sent)[Dropped(m, blue)..toMaster] == Reliable(c.sent)[Dropped(m, blue)..toMaster];
  }

  lemma ClientTakesConfirmation<S(!new)>(sim: Sim<S>, m: Peer<S>, c: Peer<S>, blue: seq<Input>, red: seq<Input>,
                                         toClient: nat, toMaster: nat)
    requires Symmetric(sim) && Inv(sim, m, c, blue, red, toClient, toMaster)
    requires WellFormed(c) && c.rb.currentFrame == |red|
    requires c.queue != [] && !c.queue[0].InputPacket?
    ensures var o := HandleHead(sim, c);
            o.Continue? && Inv(sim, m, o.peer, blue, red, toClient, toMaster) && o.peer.rb.currentFrame == |red|
  {
    NextConfirmation(sim, m, c, blue, red, toClient, toMaster);
    HandleConfirmationOk(sim, c, c.queue[0], blue, red);
    var c' := HandleHead(sim, c).peer;
    LinkedToConfirmedClient(sim, m, c, c', blue, red, toClient, toMaster);
  }

  lemma ClientHandles<S(!new)>(sim: Sim<S>, m: Peer<S>, c: Peer<S>, blue: seq<Input>, red: seq<Input>,
                               toClient: nat, toMaster: nat)
    requires Symmetric(sim) && Inv(sim, m, c, blue, red, toClient, toMaster)
    requires WellFormed(c) && c.rb.currentFrame == |red| && c.queue != []
    ensures var o := HandleHead(sim, c);
            !o.Fault? && Inv(sim, m, o.peer, blue, red, toClient, toMaster) && o.peer.rb.currentFrame == |red|
  {
    if c.queue[0].InputPacket? {
      assert WindowOf(c.queue[0].entries, blue, c.rb.frameToConfirm);
      if !Stale(c.rb, c.queue[0].entries) {
        ClientTakesInput(sim, m, c, blue, red, toClient, toMaster);
      }
    } else {
      ClientTakesConfirmation(sim, m, c, blue, red, toClient, toMaster);
    }
  }

  lemma {:induction false} ClientHandlesAll<S(!new)>(sim: Sim<S>, m: Peer<S>, c: Peer<S>, blue: seq<Input>, red: seq<Input>,
                                                     toClient: nat, toMaster: nat)
    requires Symmetric(sim) && Inv(sim, m, c, blue, red, toClient, toMaster)
    requires WellFormed(c) && c.rb.currentFrame == |red|
    ensures var o := HandleAll(sim, c);
            !o.Fault? && Inv(sim, m, o.peer, blue, red, toClient, toMaster) && o.peer.rb.currentFrame == |red|
    decreases |c.queue|
  {
    if c.queue != [] {
      ClientHandles(sim, m, c, blue, red, toClient, toMaster);
      var o := HandleHead(sim, c);
      if o.Continue? {
        ClientHandlesAll(sim, m, o.peer, blue, red, toClient, toMaster);
      }
    }
  }
}
