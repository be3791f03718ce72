/** Every step of the master keeps the invariant, as long as it plays on time. */
module MasterSteps {
  import opened Inputs
  import opened Simulation
  import opened RollbackSpec
  import opened RollbackLaws
  import opened PeerSpec
  import opened SessionSpec
  import opened SessionInvariant

  /** The peer after confirming its next frame and sending the confirmation. */
  function ConfirmedOnce<S>(sim: Sim<S>, p: Peer<S>): (p': Peer<S>)
    requires WellFormed(p) && p.rb.frameToConfirm < GAME_FRAMES
    ensures WellFormed(p')
  {
    p.(rb := Confirm(sim, p.rb), sent := p.sent + [Confirmation(ConfirmChecksum(sim, p.rb), p.window)])
  }

  /** The peer after confirming all frames below `target`. */
  function ConfirmedUpTo<S>(sim: Sim<S>, p: Peer<S>, target: nat): Peer<S>
    requires WellFormed(p) && target <= GAME_FRAMES
    decreases target - p.rb.frameToConfirm
  {
    if target <= p.rb.frameToConfirm then p else ConfirmedUpTo(sim, ConfirmedOnce(sim, p), target)
  }

  /** On a window of the client's inputs that holds the frames to confirm, the loop confirms them and
      reads nothing else. */
  lemma {:induction false} ConfirmLoopIs<S>(sim: Sim<S>, p: Peer<S>, entries: seq<FrameInput>,
                                            first: nat, last: nat, target: nat, end: nat, red: seq<Input>)
    requires WellFormed(p) && first < last <= |red| && entries == Window(red, first, last)
    requires first <= p.rb.frameToConfirm <= target <= last && target <= p.rb.currentFrame + 1
    requires p.guard.AtCurrent? ==> target <= p.rb.currentFrame
    requires end == target - first || (target - first < end <= |entries| && StopsAt(p, target))
    ensures ConfirmLoop(sim, p, entries, p.rb.frameToConfirm - first, end) == Continue(ConfirmedUpTo(sim, p, target))
    decreases target - p.rb.frameToConfirm
  {
    if p.rb.frameToConfirm < target {
      ConfirmLoopIs(sim, ConfirmedOnce(sim, p), entries, first, last, target, end, red);
    }
  }

  /** Confirming one frame whose inputs are known, and sending the confirmation. */
  lemma SendOneConfirmation<S(!new)>(sim: Sim<S>, p: Peer<S>, blue: seq<Input>, red: seq<Input>, bound: int)
    requires Symmetric(sim) && PeerOk(sim, 0, p, blue, red) && MasterLog(sim, p, blue, red, bound)
    requires p.rb.frameToConfirm < |blue| && p.rb.frameToConfirm <= p.rb.lastRemote
    requires Dropped(p, blue) <= p.rb.frameToConfirm
    requires WellFormed(p)
    ensures var p' := ConfirmedOnce(sim, p);
            && PeerOk(sim, 0, p', blue, red) && MasterLog(sim, p', blue, red, bound)
            && Reliable(p'.sent) == Reliable(p.sent) + [p'.sent[|p.sent|]]
  {
    hide Faithful, Symmetric;
    ConfirmedAreKnown(sim, p, blue, red);
    ConfirmFaithful(sim, p.rb, blue, red);
    ReliableAppend(p.sent, Confirmation(ConfirmChecksum(sim, p.rb), p.window));
  }

  /** Confirming frames whose two inputs are known keeps the master's half of the invariant. */
  lemma {:induction false} ConfirmedUpToOk<S(!new)>(sim: Sim<S>, p: Peer<S>, target: nat,
                                                    blue: seq<Input>, red: seq<Input>, bound: int)
    requires Symmetric(sim) && WellFormed(p)
    requires PeerOk(sim, 0, p, blue, red) && MasterLog(sim, p, blue, red, bound)
    requires Dropped(p, blue) <= p.rb.frameToConfirm <= target
    requires target <= |blue| && target <= p.rb.lastRemote + 1
    ensures var p' := ConfirmedUpTo(sim, p, target);
            && p' == p.(rb := p'.rb, sent := p'.sent)
            && p'.rb.frameToConfirm == target && p'.rb.currentFrame == p.rb.currentFrame
            && p'.rb.lastRemote == p.rb.lastRemote
            && PeerOk(sim, 0, p', blue, red) && MasterLog(sim, p', blue, red, bound)
            && Reliable(p.sent) <= Reliable(p'.sent)
    decreases target - p.rb.frameToConfirm
  {
    if p.rb.frameToConfirm < target {
      SendOneConfirmation(sim, p, blue, red, bound);
      ConfirmedUpToOk(sim, ConfirmedOnce(sim, p), target, blue, red, bound);
    }
  }

  /** The first frame a packet with the inputs below `last` does not make the master confirm. It lies
      past the current frame exactly when the packet ends at the current frame and the guard is the code's. */
  function ConfirmTarget(guard: Guard, currentFrame: nat, last: nat): nat {
    if last - 1 > currentFrame || (guard.AtCurrent? && last - 1 == currentFrame) then currentFrame else last
  }

  lemma SendConfirmationsIs<S>(sim: Sim<S>, p: Peer<S>, entries: seq<FrameInput>, red: seq<Input>, first: nat, last: nat)
    requires WellFormed(p) && first < last <= |red| && entries == Window(red, first, last)
    requires first <= p.rb.frameToConfirm <= last && p.rb.frameToConfirm <= p.rb.currentFrame
    ensures SendConfirmations(sim, p, entries)
         == Continue(ConfirmedUpTo(sim, p, ConfirmTarget(p.guard, p.rb.currentFrame, last)))
  {
    hide ConfirmLoop, FindFrame;
    FindInWindow(red, first, last, p.rb.frameToConfirm);
    FindInWindow(red, first, last, p.rb.currentFrame);
    ConfirmLoopIs(sim, p, entries, first, last, ConfirmTarget(p.guard, p.rb.currentFrame, last),
      ConfirmEnd(p.rb, entries), red);
  }

  /** What handling a fresh input packet does on the master, whichever frame it ends at. */
  lemma HandleInputIs<S>(sim: Sim<S>, p: Peer<S>, entries: seq<FrameInput>, red: seq<Input>, first: nat, last: nat)
    requires WellFormed(p) && p.rb.me == 0
    requires Deliverable(p.rb, entries, red, first, last) && first <= p.rb.frameToConfirm
    requires p.rb.frameToConfirm <= p.rb.currentFrame && p.rb.frameToConfirm <= p.rb.lastRemote + 1 <= last
    ensures Readable(p.rb, entries)
    ensures HandleInput(sim, p, entries)
         == Continue(ConfirmedUpTo(sim, p.(rb := Receive(sim, p.rb, entries, 1)),
                                   ConfirmTarget(p.guard, p.rb.currentFrame, last)))
  {
    DeliverableIsReadable(p.rb, entries, red, first, last);
    ReceiveFields(sim, p.rb, entries, 1);
    SendConfirmationsIs(sim, p.(rb := Receive(sim, p.rb, entries, 1)), entries, red, first, last);
  }

  /** More confirmed frames and a longer log on the master fit the same client. */
  lemma LinkedToGrownMaster<S>(sim: Sim<S>, m: Peer<S>, m': Peer<S>, c: Peer<S>, blue: seq<Input>, red: seq<Input>,
                               toClient: nat, toMaster: nat)
    requires Linked(sim, m, c, blue, red, toClient, toMaster)
    requires m'.window == m.window && m.rb.frameToConfirm <= m'.rb.frameToConfirm
    requires MasterLog(sim, m', blue, red, c.rb.frameToConfirm) && Reliable(m.sent) <= Reliable(m'.sent)
    requires m.queue != [] && m.queue[0].InputPacket? && m'.queue == m.queue[1..]
    ensures Linked(sim, m', c, blue, red, toClient, toMaster)
  {
    ReliablePop(m.queue);
  }

  lemma SameLog<S>(sim: Sim<S>, m: Peer<S>, m': Peer<S>, blue: seq<Input>, red: seq<Input>, bound: int)
    requires MasterLog(sim, m, blue, red, bound) && m'.sent == m.sent && m'.rb.frameToConfirm == m.rb.frameToConfirm
    ensures MasterLog(sim, m', blue, red, bound)
  {
  }

  lemma WindowEnds(entries: seq<FrameInput>, row: seq<Input>, bound: int)
    requires WindowOf(entries, row, bound)
    ensures entries != [] && 0 <= entries[0].frame <= bound && entries[0].frame + |entries| <= |row|
    ensures entries[|entries| - 1].frame == entries[0].frame + |entries| - 1
  {
  }

  lemma ConfirmedAreKnown<S>(sim: Sim<S>, m: Peer<S>, blue: seq<Input>, red: seq<Input>)
    requires PeerOk(sim, 0, m, blue, red)
    ensures m.rb.me == 0 && m.rb.frameToConfirm <= |blue| && m.rb.frameToConfirm <= m.rb.lastRemote + 1 <= |red|
  {
  }

  /** A fresh window of the client's inputs is taken, and then frames are confirmed. */
  lemma TakesAndConfirms<S(!new)>(sim: Sim<S>, m: Peer<S>, entries: seq<FrameInput>,
                                  blue: seq<Input>, red: seq<Input>, bound: int)
    requires Symmetric(sim) && PeerOk(sim, 0, m, blue, red) && MasterLog(sim, m, blue, red, bound)
    requires WellFormed(m) && m.rb.currentFrame == |blue|
    requires WindowOf(entries, red, bound) && bound <= m.rb.frameToConfirm && !Stale(m.rb, entries)
    ensures var last := entries[0].frame + |entries|;
            && entries[|entries| - 1].frame == last - 1 && last <= |red|
            && Readable(m.rb, entries)
            && var received := m.(rb := Receive(sim, m.rb, entries, 1));
            && WellFormed(received) && PeerOk(sim, 0, received, blue, red) && MasterLog(sim, received, blue, red, bound)
            && received.rb.lastRemote == KnownAfter(m.rb, last)
            && received.rb.currentFrame == |blue| && received.rb.frameToConfirm == m.rb.frameToConfirm
            && HandleInput(sim, m, entries) == Continue(ConfirmedUpTo(sim, received, ConfirmTarget(m.guard, |blue|, last)))
  {
    hide Receive, HandleInput, Deliverable, Readable, Symmetric, WindowOf, MasterLog, PeerOk;
    WindowEnds(entries, red, bound);
    ConfirmedAreKnown(sim, m, blue, red);
    var first, last := entries[0].frame, entries[0].frame + |entries|;
    PeerReceives(sim, 0, m, entries, blue, red, bound);
    HandleInputIs(sim, m, entries, red, first, last);
    SameLog(sim, m, m.(rb := Receive(sim, m.rb, entries, 1)), blue, red, bound);
  }

  /** A window of the client's inputs that does not end at the current frame, or any window with the
      stricter guard: the master confirms only
      frames whose two inputs it has, and reads nothing outside the packet. */
  lemma {:induction false} TakeWindow<S(!new)>(sim: Sim<S>, m: Peer<S>, entries: seq<FrameInput>,
                                               blue: seq<Input>, red: seq<Input>, bound: int)
    requires Symmetric(sim) && PeerOk(sim, 0, m, blue, red) && MasterLog(sim, m, blue, red, bound)
    requires WellFormed(m) && m.rb.currentFrame == |blue|
    requires WindowOf(entries, red, bound) && bound <= m.rb.frameToConfirm && Dropped(m, blue) <= m.rb.frameToConfirm
    requires !Stale(m.rb, entries) && (m.guard.AtCurrent? || !EndsAtCurrentFrame(m, entries))
    ensures var o := HandleInput(sim, m, entries);
            && o.Continue? && o.peer == m.(rb := o.peer.rb, sent := o.peer.sent)
            && PeerOk(sim, 0, o.peer, blue, red) && MasterLog(sim, o.peer, blue, red, bound)
            && m.rb.frameToConfirm <= o.peer.rb.frameToConfirm && o.peer.rb.currentFrame == |blue|
            && Reliable(m.sent) <= Reliable(o.peer.sent)
  {
    TakesAndConfirms(sim, m, entries, blue, red, bound);
    hide Receive, HandleInput, Faithful, Symmetric, WindowOf, MasterLog;
    var target := ConfirmTarget(m.guard, m.rb.currentFrame, entries[0].frame + |entries|);
    ConfirmedUpToOk(sim, m.(rb := Receive(sim, m.rb, entries, 1)), target, blue, red, bound);
  }

  /** A fresh input packet on the master, when it is on time. */
  lemma {:induction false} MasterTakesInput<S(!new)>(sim: Sim<S>, m: Peer<S>, c: Peer<S>, blue: seq<Input>, red: seq<Input>,
                                  toClient: nat, toMaster: nat)
    requires Symmetric(sim) && Inv(sim, m, c, blue, red, toClient, toMaster)
    requires WellFormed(m) && m.rb.currentFrame == |blue|
    requires m.queue != [] && m.queue[0].InputPacket? && HeadOnTime(m)
    requires m.queue[0].entries != [] && !Stale(m.rb, m.queue[0].entries)
    ensures var o := HandleHead(sim, m);
            o.Continue? && Inv(sim, o.peer, c, blue, red, toClient, toMaster) && o.peer.rb.currentFrame == |blue|
  {
    var entries := m.queue[0].entries;
    assert WindowOf(entries, red, c.rb.frameToConfirm);
    TakeWindow(sim, m, entries, blue, red, c.rb.frameToConfirm);
    LinkedToGrownMaster(sim, m, HandleHead(sim, m).peer, c, blue, red, toClient, toMaster);
  }

  lemma LinkedToDroppedMaster<S>(sim: Sim<S>, m: Peer<S>, m': Peer<S>, c: Peer<S>, blue: seq<Input>, red: seq<Input>,
                                 toClient: nat, toMaster: nat)
    requires Linked(sim, m, c, blue, red, toClient, toMaster)
    requires m.queue != [] && !m.queue[0].InputPacket? && m'.queue == m.queue[1..]
    requires m'.rb == m.rb && m'.sent == m.sent && m.window != [] && m'.window == m.window[1..]
    ensures Linked(sim, m', c, blue, red, toClient, toMaster)
  {
    ReliablePop(m.queue);
    assert Reliable(m.queue)[0] == Reliable(c.sent)[Dropped(m, blue)];
    assert Reliable(m'.queue) == Reliable(m.queue)[1..];
  }

  /** An acknowledgement on the master: there is an input to drop. */
  lemma {:induction false} MasterTakesAcknowledgement<S>(sim: Sim<S>, m: Peer<S>, c: Peer<S>, blue: seq<Input>,
                                                         red: seq<Input>,
                                                         toClient: nat, toMaster: nat)
    requires Inv(sim, m, c, blue, red, toClient, toMaster) && WellFormed(m)
    requires m.queue != [] && !m.queue[0].InputPacket?
    ensures var o := HandleHead(sim, m);
            o.Continue? && Inv(sim, o.peer, c, blue, red, toClient, toMaster) && o.peer.rb == m.rb
  {
    hide Faithful, InputsOk;
    ReliablePop(m.queue);
    ConfirmedAreKnown(sim, m, blue, red);
    var dropped := Dropped(m, blue);
    assert dropped < |blue|;
    var m' := m.(window := m.window[1..], queue := m.queue[1..]);
    assert HandleHead(sim, m) == Continue(m');
    WindowDrops(blue, dropped);
    LinkedToDroppedMaster(sim, m, m', c, blue, red, toClient, toMaster);
  }

  lemma {:induction false} MasterHandles<S(!new)>(sim: Sim<S>, m: Peer<S>, c: Peer<S>, blue: seq<Input>, red: seq<Input>,
                               toClient: nat, toMaster: nat)
    requires Symmetric(sim) && Inv(sim, m, c, blue, red, toClient, toMaster)
    requires WellFormed(m) && m.rb.currentFrame == |blue|
    requires m.queue != [] && HeadOnTime(m)
    ensures var o := HandleHead(sim, m);
            !o.Fault? && Inv(sim, o.peer, c, blue, red, toClient, toMaster) && o.peer.rb.currentFrame == |blue|
  {
    if m.queue[0].InputPacket? {
      assert WindowOf(m.queue[0].entries, red, c.rb.frameToConfirm);
      if !Stale(m.rb, m.queue[0].entries) {
        MasterTakesInput(sim, m, c, blue, red, toClient, toMaster);
      }
    } else {
      MasterTakesAcknowledgement(sim, m, c, blue, red, toClient, toMaster);
    }
  }

  lemma {:induction false} MasterHandlesAll<S(!new)>(sim: Sim<S>, m: Peer<S>, c: Peer<S>, blue: seq<Input>, red: seq<Input>,
                                                     toClient: nat, toMaster: nat)
    requires Symmetric(sim) && Inv(sim, m, c, blue, red, toClient, toMaster)
    requires WellFormed(m) && m.rb.currentFrame == |blue| && HandledOnTime(sim, m)
    ensures var o := HandleAll(sim, m);
            !o.Fault? && Inv(sim, o.peer, c, blue, red, toClient, toMaster) && o.peer.rb.currentFrame == |blue|
    decreases |m.queue|
  {
    if m.queue != [] {
      MasterHandles(sim, m, c, blue, red, toClient, toMaster);
      var o := HandleHead(sim, m);
      if o.Continue? {
        MasterHandlesAll(sim, o.peer, c, blue, red, toClient, toMaster);
      }
    }
  }
}
