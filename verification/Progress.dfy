/** What a peer learns: an independent account of the packets waiting for a peer says exactly how far a fixed
    step brings it, what it sends, and what stays in its queue. */
module Progress {
  import opened Inputs
  import opened Simulation
  import opened RollbackSpec
  import opened RollbackLaws
  import opened PeerSpec
  import opened SessionSpec
  import opened SessionInvariant
  import opened MasterSteps
  import opened ClientSteps
  import opened Agreement

  /** The last remote frame a peer knows, how many packets it has handled, how many of them came over the
      reliable channel, and the frames that can be confirmed. */
  datatype Account = Account(known: int, packets: nat, reliable: nat, confirmable: int)

  function Last(entries: seq<FrameInput>): int
    requires entries != []
  {
    entries[|entries| - 1].frame
  }

  /** Go through a queue at frame `frame`. What a packet brings counts up to that frame. An input packet that
      ends before what is known stays, with everything behind it. */
  function Read(a: Account, frame: int, queue: seq<Packet>): Account
    decreases |queue|
  {
    if queue == [] then a
    else match queue[0]
      case InputPacket(entries) =>
        if entries == [] || Last(entries) < a.known then a
        else Read(Account(Max(a.known, Min(Last(entries), frame)), a.packets + 1, a.reliable,
                          Max(a.confirmable, Min(Last(entries) + 1, frame))), frame, queue[1..])
      case Confirmation(_, entries) =>
        Read(Account(if entries == [] then a.known else Max(a.known, Min(Last(entries), frame)), a.packets + 1,
                     a.reliable + 1, a.confirmable), frame, queue[1..])
      case Acknowledgement => Read(a.(packets := a.packets + 1, reliable := a.reliable + 1), frame, queue[1..])
  }

  function AccountOf<S>(p: Peer<S>): Account { Account(p.rb.lastRemote, 0, 0, p.rb.frameToConfirm) }

  /** The account of a peer's queue. */
  function Reading<S>(p: Peer<S>): Account { Read(AccountOf(p), p.rb.currentFrame, p.queue) }

  lemma ReadHead(a: Account, frame: int, queue: seq<Packet>)
    requires queue != []
    ensures var a' := Read(a, frame, queue[..1]);
            && a'.known >= a.known && a.packets <= a'.packets <= a.packets + 1
            && Read(a, frame, queue) == if a'.packets == a.packets then a else Read(a', frame, queue[1..])
  {
    assert queue[..1][1..] == [];
  }

  /** `b` counts from somewhere else than `a`. */
  predicate Shifted(a: Account, b: Account, n: int, k: int) {
    b.known == a.known && b.packets == a.packets + n && b.reliable == a.reliable + k
  }

  lemma HeadShifted(a: Account, b: Account, n: int, k: int, frame: int, queue: seq<Packet>)
    requires queue != [] && Shifted(a, b, n, k)
    ensures var a', b' := Read(a, frame, queue[..1]), Read(b, frame, queue[..1]);
            Shifted(a', b', n, k) && (b.confirmable == a.confirmable ==> b'.confirmable == a'.confirmable)
  {
    assert queue[..1][1..] == [];
  }

  /** Counting does not depend on where it starts, nor what is known on what can be confirmed. */
  lemma {:induction false} ReadShifted(a: Account, b: Account, n: int, k: int, frame: int, queue: seq<Packet>)
    requires Shifted(a, b, n, k)
    ensures var a', b' := Read(a, frame, queue), Read(b, frame, queue);
            && Shifted(a', b', n, k) && (b.confirmable == a.confirmable ==> b'.confirmable == a'.confirmable)
            && a'.packets <= a.packets + |queue|
    decreases |queue|
  {
    hide Read;
    if queue != [] {
      ReadHead(a, frame, queue);
      ReadHead(b, frame, queue);
      HeadShifted(a, b, n, k, frame, queue);
      ReadShifted(Read(a, frame, queue[..1]), Read(b, frame, queue[..1]), n, k, frame, queue[1..]);
    } else {
      ReadNothing(a, frame);
      ReadNothing(b, frame);
    }
  }

  lemma ReadNothing(a: Account, frame: int)
    ensures Read(a, frame, []) == a
  {
  }

  function Acknowledgements(n: nat): seq<Packet> { seq(n, i => Acknowledgement) }

  /** A peer knows the inputs the other player really gave, up to the last remote frame. */
  predicate KnowsRemote<S>(r: RollbackState<S>, other: seq<Input>) {
    && Shaped(r) && r.lastRemote < |other|
    && forall f :: 0 <= f <= r.lastRemote ==> r.table[1 - r.me][f] == other[f]
  }

  // ----- the client -----

  /** One packet on the client, by its kind. */
  ghost predicate ClientTook<S>(c: Peer<S>, o: Outcome<S>, blue: seq<Input>)
    requires c.queue != []
  {
    match c.queue[0]
    case InputPacket(entries) =>
      && entries != []
      && (if Last(entries) < c.rb.lastRemote then o == Stop(c)
          else
            && o.Continue? && o.peer == c.(rb := o.peer.rb, queue := c.queue[1..])
            && o.peer.rb.lastRemote == Max(c.rb.lastRemote, Min(Last(entries), c.rb.currentFrame))
            && KnowsRemote(o.peer.rb, blue) && o.peer.rb.me == 1 && o.peer.rb.frameToConfirm == c.rb.frameToConfirm)
    case Confirmation(_, entries) =>
      && entries != [] && c.window != []
      && o.Continue? && o.peer == c.(rb := o.peer.rb, queue := c.queue[1..], window := c.window[1..],
                                     sent := c.sent + [Acknowledgement])
      && o.peer.rb.lastRemote == Max(c.rb.lastRemote, Min(Last(entries), c.rb.currentFrame))
      && KnowsRemote(o.peer.rb, blue) && o.peer.rb.me == 1 && o.peer.rb.frameToConfirm == c.rb.frameToConfirm + 1
    case Acknowledgement => false
  }

  /** A fresh input packet makes the client know the inputs in it, and changes nothing else but its games. */
  lemma ClientTakesInputExactly<S(!new)>(sim: Sim<S>, m: Peer<S>, c: Peer<S>, blue: seq<Input>, red: seq<Input>,
                                         toClient: nat, toMaster: nat)
    requires Symmetric(sim) && Inv(sim, m, c, blue, red, toClient, toMaster)
    requires WellFormed(c) && c.rb.currentFrame == |red| && c.queue != [] && c.queue[0].InputPacket?
    ensures ClientTook(c, HandleHead(sim, c), blue)
  {
    hide Receive, Readable, Deliverable, Symmetric, Speculation, TruthFor, Reliable, MasterLog;
    var entries := c.queue[0].entries;
    assert WindowOf(entries, blue, c.rb.frameToConfirm);
    WindowEnds(entries, blue, c.rb.frameToConfirm);
    if !Stale(c.rb, entries) {
      PeerReceives(sim, 1, c, entries, red, blue, c.rb.frameToConfirm);
      assert HandleHead(sim, c) == Continue(c.(rb := Receive(sim, c.rb, entries, 0), queue := c.queue[1..]));
    }
  }

  lemma TakesConfirmedExactly<S(!new)>(sim: Sim<S>, c: Peer<S>, entries: seq<FrameInput>, blue: seq<Input>, red: seq<Input>)
    requires Symmetric(sim) && PeerOk(sim, 1, c, red, blue) && WellFormed(c) && c.rb.currentFrame == |red|
    requires c.rb.frameToConfirm < |red| && WindowOf(entries, blue, c.rb.frameToConfirm)
    requires c.rb.frameToConfirm < entries[0].frame + |entries|
    ensures TakeConfirmed(sim, c, entries).Continue?
    ensures TakeConfirmed(sim, c, entries).peer.rb.lastRemote == Max(c.rb.lastRemote, Min(Last(entries), c.rb.currentFrame))
  {
    hide Receive, Faithful, Deliverable, Readable, Symmetric, WindowOf;
    WindowEnds(entries, blue, c.rb.frameToConfirm);
    TakeConfirmedOk(sim, c, entries, blue, red);
    if c.rb.lastRemote < Last(entries) {
      ClientKnows(sim, c, blue, red);
      PeerReceives(sim, 1, c, entries, red, blue, c.rb.frameToConfirm);
    }
  }

  lemma ClientKnows<S>(sim: Sim<S>, c: Peer<S>, blue: seq<Input>, red: seq<Input>)
    requires PeerOk(sim, 1, c, red, blue)
    ensures c.rb.me == 1 && c.rb.frameToConfirm <= c.rb.lastRemote + 1 && KnowsRemote(c.rb, blue)
  {
  }

  /** A confirmation: the inputs in it, one frame confirmed, one acknowledgement, one input dropped. */
  lemma ClientTakesConfirmationExactly<S(!new)>(sim: Sim<S>, m: Peer<S>, c: Peer<S>, blue: seq<Input>, red: seq<Input>,
                                                toClient: nat, toMaster: nat)
    requires Symmetric(sim) && Inv(sim, m, c, blue, red, toClient, toMaster)
    requires WellFormed(c) && c.rb.currentFrame == |red| && c.queue != [] && !c.queue[0].InputPacket?
    ensures ClientTook(c, HandleHead(sim, c), blue)
  {
    hide Receive, Readable, Deliverable, Symmetric, Faithful, Reliable, MasterLog, ConfirmChecksum, Confirm, TakeConfirmed;
    NextConfirmation(sim, m, c, blue, red, toClient, toMaster);
    var head := c.queue[0];
    TakesConfirmedExactly(sim, c, head.entries, blue, red);
    HandleConfirmationOk(sim, c, head, blue, red);
    ConfirmFields(sim, TakeConfirmed(sim, c, head.entries).peer.rb);
    var c' := HandleHead(sim, c).peer;
    ClientKnows(sim, HandleConfirmation(sim, c, head.checksum, head.entries).peer, blue, red);
    assert WindowOf(head.entries, blue, c.rb.frameToConfirm);
    TakeConfirmedFields(sim, c, head.entries);
  }

  lemma ConfirmFields<S>(sim: Sim<S>, r: RollbackState<S>)
    requires Shaped(r) && r.frameToConfirm < GAME_FRAMES
    ensures Confirm(sim, r).lastRemote == r.lastRemote && Confirm(sim, r).frameToConfirm == r.frameToConfirm + 1
  {
  }

  lemma TakeConfirmedFields<S>(sim: Sim<S>, p: Peer<S>, entries: seq<FrameInput>)
    requires WellFormed(p) && TakeConfirmed(sim, p, entries).Continue?
    ensures TakeConfirmed(sim, p, entries).peer == p.(rb := TakeConfirmed(sim, p, entries).peer.rb)
  {
  }

  lemma ClientTakesExactly<S(!new)>(sim: Sim<S>, m: Peer<S>, c: Peer<S>, blue: seq<Input>, red: seq<Input>,
                                    toClient: nat, toMaster: nat)
    requires Symmetric(sim) && Inv(sim, m, c, blue, red, toClient, toMaster)
    requires WellFormed(c) && c.rb.currentFrame == |red| && c.queue != []
    ensures ClientTook(c, HandleHead(sim, c), blue)
  {
    hide Inv, HandleHead, ClientTook;
    if c.queue[0].InputPacket? {
      ClientTakesInputExactly(sim, m, c, blue, red, toClient, toMaster);
    } else {
      ClientTakesConfirmationExactly(sim, m, c, blue, red, toClient, toMaster);
    }
  }

  /** The client after its queue has been handled, by the account of it. */
  ghost predicate ClientRead<S>(c: Peer<S>, o: Outcome<S>, blue: seq<Input>) {
    var a := Reading(c);
    && o.Stop? && a.packets <= |c.queue| && a.reliable <= |c.window|
    && o.peer == c.(rb := o.peer.rb, queue := c.queue[a.packets..], window := c.window[a.reliable..],
                    sent := c.sent + Acknowledgements(a.reliable))
    && o.peer.rb.lastRemote == a.known && KnowsRemote(o.peer.rb, blue) && o.peer.rb.me == 1
    && o.peer.rb.frameToConfirm == c.rb.frameToConfirm + a.reliable
    && o.peer.rb.currentFrame == c.rb.currentFrame
  }

  lemma {:induction false} ClientReadsExactly<S(!new)>(sim: Sim<S>, m: Peer<S>, c: Peer<S>, blue: seq<Input>, red: seq<Input>,
                                                       toClient: nat, toMaster: nat)
    requires Symmetric(sim) && Inv(sim, m, c, blue, red, toClient, toMaster)
    requires WellFormed(c) && c.rb.currentFrame == |red|
    ensures ClientRead(c, HandleAll(sim, c), blue)
    decreases |c.queue|
  {
    hide Inv, HandleHead, KnowsRemote, Symmetric, Acknowledgements;
    ClientStarts(sim, m, c, blue, red, toClient, toMaster);
    if c.queue != [] {
      var o := HandleHead(sim, c);
      ClientTakesExactly(sim, m, c, blue, red, toClient, toMaster);
      ClientHandles(sim, m, c, blue, red, toClient, toMaster);
      if o.Continue? {
        ClientReadsExactly(sim, m, o.peer, blue, red, toClient, toMaster);
        ClientReadsOn(c, o, HandleAll(sim, o.peer), blue);
      }
    }
  }

  lemma ClientStarts<S>(sim: Sim<S>, m: Peer<S>, c: Peer<S>, blue: seq<Input>, red: seq<Input>, toClient: nat, toMaster: nat)
    requires Inv(sim, m, c, blue, red, toClient, toMaster)
    ensures KnowsRemote(c.rb, blue) && c.rb.me == 1 && c.sent + Acknowledgements(0) == c.sent && c.window[0..] == c.window && c.queue[0..] == c.queue
  {
  }

  /** One packet, and then the rest of the queue. */
  lemma ClientReadsOn<S>(c: Peer<S>, o: Outcome<S>, o': Outcome<S>, blue: seq<Input>)
    requires c.queue != [] && ClientTook(c, o, blue) && o.Continue? && ClientRead(o.peer, o', blue)
    requires o.peer.rb.currentFrame == c.rb.currentFrame
    ensures ClientRead(c, o', blue)
  {
    hide KnowsRemote;
    var a, a' := Reading(c), Reading(o.peer);
    var k := if c.queue[0].InputPacket? then 0 else 1;
    var x := match c.queue[0]
      case InputPacket(entries) => Max(c.rb.frameToConfirm, Min(Last(entries) + 1, c.rb.currentFrame))
      case _ => c.rb.frameToConfirm;
    ReadShifted(AccountOf(o.peer), Account(o.peer.rb.lastRemote, 1, k, x), 1, k, c.rb.currentFrame, o.peer.queue);
    assert a == Account(a'.known, a'.packets + 1, a'.reliable + k, a.confirmable);
    assert Acknowledgements(a'.reliable + 1) == [Acknowledgement] + Acknowledgements(a'.reliable);
  }

  // ----- the master -----

  /** `n` confirmations have been sent. */
  ghost predicate SentMore(sent: seq<Packet>, sent': seq<Packet>, n: int) {
    && |sent'| == |sent| + n && n >= 0 && sent'[..|sent|] == sent
    && forall i :: |sent| <= i < |sent'| ==> sent'[i].Confirmation?
  }

  lemma {:induction false} ConfirmedUpToSends<S>(sim: Sim<S>, p: Peer<S>, target: nat)
    requires WellFormed(p) && p.rb.frameToConfirm <= target <= GAME_FRAMES
    ensures SentMore(p.sent, ConfirmedUpTo(sim, p, target).sent, target - p.rb.frameToConfirm)
    decreases target - p.rb.frameToConfirm
  {
    if p.rb.frameToConfirm < target {
      ConfirmedUpToSends(sim, ConfirmedOnce(sim, p), target);
    }
  }

  /** One packet on the master. A fresh input packet lets it confirm every frame that is now known on both
      sides, but not the current one. */
  ghost predicate MasterTook<S>(m: Peer<S>, o: Outcome<S>, red: seq<Input>)
    requires m.queue != []
  {
    match m.queue[0]
    case InputPacket(entries) =>
      && entries != []
      && (if Last(entries) < m.rb.lastRemote then o == Stop(m)
          else
            && o.Continue? && o.peer == m.(rb := o.peer.rb, queue := m.queue[1..], sent := o.peer.sent)
            && o.peer.rb.lastRemote == Max(m.rb.lastRemote, Min(Last(entries), m.rb.currentFrame))
            && KnowsRemote(o.peer.rb, red) && o.peer.rb.me == 0
            && o.peer.rb.frameToConfirm == Max(m.rb.frameToConfirm, Min(Last(entries) + 1, m.rb.currentFrame))
            && SentMore(m.sent, o.peer.sent, o.peer.rb.frameToConfirm - m.rb.frameToConfirm))
    case _ => m.window != [] && o == Continue(m.(queue := m.queue[1..], window := m.window[1..]))
  }

  lemma TakesFreshExactly<S(!new)>(sim: Sim<S>, m: Peer<S>, entries: seq<FrameInput>, blue: seq<Input>, red: seq<Input>, bound: int)
    requires Symmetric(sim) && PeerOk(sim, 0, m, blue, red) && MasterLog(sim, m, blue, red, bound)
    requires WellFormed(m) && m.rb.currentFrame == |blue|
    requires WindowOf(entries, red, bound) && bound <= m.rb.frameToConfirm && Dropped(m, blue) <= m.rb.frameToConfirm
    requires !Stale(m.rb, entries) && (m.guard.AtCurrent? || !EndsAtCurrentFrame(m, entries))
    ensures var o := HandleInput(sim, m, entries);
            && o.Continue? && o.peer == m.(rb := o.peer.rb, sent := o.peer.sent)
            && o.peer.rb.lastRemote == Max(m.rb.lastRemote, Min(Last(entries), m.rb.currentFrame))
            && KnowsRemote(o.peer.rb, red) && o.peer.rb.me == 0
            && o.peer.rb.frameToConfirm == Max(m.rb.frameToConfirm, Min(Last(entries) + 1, m.rb.currentFrame))
            && SentMore(m.sent, o.peer.sent, o.peer.rb.frameToConfirm - m.rb.frameToConfirm)
  {
    hide Receive, HandleInput, Symmetric, ConfirmedUpTo, WindowOf, MasterLog, PeerOk, KnowsRemote, Readable;
    WindowEnds(entries, red, bound);
    ConfirmedAreKnown(sim, m, blue, red);
    TakesAndConfirms(sim, m, entries, blue, red, bound);
    var received := m.(rb := Receive(sim, m.rb, entries, 1));
    var target := ConfirmTarget(m.guard, |blue|, Last(entries) + 1);
    ConfirmedUpToOk(sim, received, target, blue, red, bound);
    ConfirmedUpToSends(sim, received, target);
    MasterKnows(sim, ConfirmedUpTo(sim, received, target), blue, red);
  }

  lemma MasterKnows<S>(sim: Sim<S>, m: Peer<S>, blue: seq<Input>, red: seq<Input>)
    requires PeerOk(sim, 0, m, blue, red)
    ensures KnowsRemote(m.rb, red) && m.rb.me == 0
  {
  }

  lemma MasterTakesInputExactly<S(!new)>(sim: Sim<S>, m: Peer<S>, c: Peer<S>, blue: seq<Input>, red: seq<Input>,
                                         toClient: nat, toMaster: nat)
    requires Symmetric(sim) && Inv(sim, m, c, blue, red, toClient, toMaster) && HeadOnTime(m)
    requires WellFormed(m) && m.rb.currentFrame == |blue| && m.queue != [] && m.queue[0].InputPacket?
    ensures MasterTook(m, HandleHead(sim, m), red)
  {
    hide PeerOk, MasterLog, KnowsRemote, Reliable, SentMore, Window, SendConfirmations;
    var entries, bound := m.queue[0].entries, c.rb.frameToConfirm;
    assert WindowOf(entries, red, bound);
    if !Stale(m.rb, entries) {
      TakesFreshExactly(sim, m, entries, blue, red, bound);
    }
  }

  lemma MasterTakesExactly<S(!new)>(sim: Sim<S>, m: Peer<S>, c: Peer<S>, blue: seq<Input>, red: seq<Input>,
                                    toClient: nat, toMaster: nat)
    requires Symmetric(sim) && Inv(sim, m, c, blue, red, toClient, toMaster) && HeadOnTime(m)
    requires WellFormed(m) && m.rb.currentFrame == |blue| && m.queue != []
    ensures MasterTook(m, HandleHead(sim, m), red)
  {
    hide HandleInput, Linked, Faithful;
    if m.queue[0].InputPacket? {
      MasterTakesInputExactly(sim, m, c, blue, red, toClient, toMaster);
    } else {
      MasterTakesAcknowledgement(sim, m, c, blue, red, toClient, toMaster);
      ConfirmedAreKnown(sim, m, blue, red);
    }
  }

  /** The master after its queue has been handled on time, by the account of it. */
  ghost predicate MasterRead<S>(m: Peer<S>, o: Outcome<S>, red: seq<Input>) {
    var a := Reading(m);
    && o.Stop? && a.packets <= |m.queue| && a.reliable <= |m.window|
    && o.peer == m.(rb := o.peer.rb, queue := m.queue[a.packets..], window := m.window[a.reliable..], sent := o.peer.sent)
    && o.peer.rb.lastRemote == a.known && KnowsRemote(o.peer.rb, red) && o.peer.rb.me == 0
    && o.peer.rb.frameToConfirm == a.confirmable
    && o.peer.rb.currentFrame == m.rb.currentFrame
    && SentMore(m.sent, o.peer.sent, a.confirmable - m.rb.frameToConfirm)
  }

  lemma {:induction false} MasterReadsExactly<S(!new)>(sim: Sim<S>, m: Peer<S>, c: Peer<S>, blue: seq<Input>, red: seq<Input>,
                                                       toClient: nat, toMaster: nat)
    requires Symmetric(sim) && Inv(sim, m, c, blue, red, toClient, toMaster)
    requires WellFormed(m) && m.rb.currentFrame == |blue| && HandledOnTime(sim, m)
    ensures MasterRead(m, HandleAll(sim, m), red)
    decreases |m.queue|
  {
    hide Inv, HandleHead, KnowsRemote, Symmetric, HeadOnTime;
    MasterStarts(sim, m, c, blue, red, toClient, toMaster);
    if m.queue != [] {
      var o := HandleHead(sim, m);
      MasterTakesExactly(sim, m, c, blue, red, toClient, toMaster);
      MasterHandles(sim, m, c, blue, red, toClient, toMaster);
      if o.Continue? {
        MasterReadsExactly(sim, o.peer, c, blue, red, toClient, toMaster);
        MasterReadsOn(m, o, HandleAll(sim, o.peer), red);
      }
    }
  }

  lemma MasterStarts<S>(sim: Sim<S>, m: Peer<S>, c: Peer<S>, blue: seq<Input>, red: seq<Input>, toClient: nat, toMaster: nat)
    requires Inv(sim, m, c, blue, red, toClient, toMaster)
    ensures KnowsRemote(m.rb, red) && m.rb.me == 0 && SentMore(m.sent, m.sent, 0) && m.window[0..] == m.window && m.queue[0..] == m.queue
    ensures m.queue != [] ==> !m.queue[0].Confirmation?
  {
    if m.queue != [] && !m.queue[0].InputPacket? {
      ReliablePop(m.queue);
      assert Reliable(m.queue)[0] == Reliable(c.sent)[Dropped(m, blue)];
    }
  }

  lemma SentTwice(sent: seq<Packet>, sent': seq<Packet>, sent'': seq<Packet>, n: int, k: int)
    requires SentMore(sent, sent', n) && SentMore(sent', sent'', k)
    ensures SentMore(sent, sent'', n + k)
  {
    assert sent''[..|sent|] == sent''[..|sent'|][..|sent|];
    forall i | |sent| <= i < |sent''| ensures sent''[i].Confirmation? {
      assert i < |sent'| ==> sent''[i] == sent''[..|sent'|][i];
    }
  }

  lemma MasterReadsOn<S>(m: Peer<S>, o: Outcome<S>, o': Outcome<S>, red: seq<Input>)
    requires m.queue != [] && MasterTook(m, o, red) && o.Continue? && MasterRead(o.peer, o', red)
    requires o.peer.rb.currentFrame == m.rb.currentFrame && !m.queue[0].Confirmation?
    ensures MasterRead(m, o', red)
  {
    hide KnowsRemote, SentMore;
    var a, a' := Reading(m), Reading(o.peer);
    var k := if m.queue[0].InputPacket? then 0 else 1;
    ReadShifted(AccountOf(o.peer), Account(o.peer.rb.lastRemote, 1, k, o.peer.rb.frameToConfirm), 1, k, m.rb.currentFrame, o.peer.queue);
    assert a == Account(a'.known, a'.packets + 1, a'.reliable + k, a'.confirmable);
    if m.queue[0].InputPacket? {
      SentTwice(m.sent, o.peer.sent, o'.peer.sent, o.peer.rb.frameToConfirm - m.rb.frameToConfirm,
        a'.confirmable - o.peer.rb.frameToConfirm);
    }
  }

  // ----- fixed steps and runs -----

  lemma {:induction false} ReadsFurther(a: Account, frame: int, queue: seq<Packet>)
    ensures Read(a, frame, queue).known >= a.known && Read(a, frame, queue).packets >= a.packets
    decreases |queue|
  {
    if queue != [] {
      ReadHead(a, frame, queue);
      ReadsFurther(Read(a, frame, queue[..1]), frame, queue[1..]);
    }
  }

  /** A packet that has been handled is known, up to the frame it was handled in. */
  lemma {:induction false} ReadCovers(a: Account, frame: int, queue: seq<Packet>, i: nat)
    requires i < Read(a, frame, queue).packets - a.packets
    ensures i < |queue|
    ensures !queue[i].Acknowledgement? && queue[i].entries != [] ==>
              Read(a, frame, queue).known >= Min(Last(queue[i].entries), frame)
    decreases |queue|
  {
    if queue != [] {
      ReadHead(a, frame, queue);
      var a' := Read(a, frame, queue[..1]);
      ReadsFurther(a', frame, queue[1..]);
      if i > 0 {
        ReadCovers(a', frame, queue[1..], i - 1);
      } else {
        assert queue[..1][1..] == [];
      }
    }
  }

  /** A fixed step that plays a frame: the packets by their account, the local input, and the window with it
      sent at the end. */
  ghost predicate Stepped<S>(p: Peer<S>, p': Peer<S>, input: Input, other: seq<Input>) {
    var a := Reading(Advanced(p));
    && a.packets <= |p.queue| && a.reliable <= |p.window|
    && p'.queue == p.queue[a.packets..]
    && p'.window == p.window[a.reliable..] + [FrameInput(input, p.rb.currentFrame + 1)]
    && p'.ended == p.ended && p'.guard == p.guard && p'.errors == p.errors
    && p'.rb.me == p.rb.me && p'.rb.currentFrame == p.rb.currentFrame + 1
    && p'.rb.lastRemote == a.known && KnowsRemote(p'.rb, other)
    && p'.rb.frameToConfirm == (if p.rb.me == 0 then a.confirmable else p.rb.frameToConfirm + a.reliable)
    && |p'.sent| > 0 && p'.sent[|p'.sent| - 1] == InputPacket(p'.window)
    && (if p.rb.me == 0 then SentMore(p.sent, p'.sent[..|p'.sent| - 1], a.confirmable - p.rb.frameToConfirm)
        else p'.sent[..|p'.sent| - 1] == p.sent + Acknowledgements(a.reliable))
  }

  lemma PlayedFields<S>(sim: Sim<S>, p: Peer<S>, input: Input, other: seq<Input>)
    requires WellFormed(p) && KnowsRemote(p.rb, other)
    ensures var p' := PlayFrame(sim, p, input);
            && p'.queue == p.queue && p'.window == p.window + [FrameInput(input, p.rb.currentFrame)]
            && p'.sent == p.sent + [InputPacket(p'.window)]
            && p'.ended == p.ended && p'.guard == p.guard && p'.errors == p.errors
            && p'.rb.me == p.rb.me && p'.rb.currentFrame == p.rb.currentFrame && p'.rb.lastRemote == p.rb.lastRemote
            && p'.rb.frameToConfirm == p.rb.frameToConfirm && KnowsRemote(p'.rb, other)
  {
  }

  lemma MasterStepsExactly<S(!new)>(sim: Sim<S>, s: Session<S>, input: Input)
    requires Symmetric(sim) && Safe(sim, s) && Active(s.master) && s.master.rb.currentFrame + 1 < GAME_FRAMES
    requires HandledOnTime(sim, Advanced(s.master))
    ensures var s' := Do(sim, s, Step(0, input));
            s'.Running? && s' == s.(master := s'.master, blue := s.blue + [input]) && Stepped(s.master, s'.master, input, s.red)
  {
    hide Inv, HandleAll, Faithful, KnowsRemote, PlayFrame, Symmetric, Reading, SentMore;
    var next := Advanced(s.master);
    MasterEnds(sim, s.master, s.client, s.blue, s.red, s.toClient, s.toMaster, s.master.ended);
    MasterReadsExactly(sim, next, s.client, s.blue, s.red, s.toClient, s.toMaster);
    MeOf(sim, s);
    PlayedFields(sim, HandleAll(sim, next).peer, input, s.red);
    SentLast(HandleAll(sim, next).peer.sent, InputPacket(PlayFrame(sim, HandleAll(sim, next).peer, input).window));
  }

  lemma ClientStepsExactly<S(!new)>(sim: Sim<S>, s: Session<S>, input: Input)
    requires Symmetric(sim) && Safe(sim, s) && Active(s.client) && s.client.rb.currentFrame + 1 < GAME_FRAMES
    ensures var s' := Do(sim, s, Step(1, input));
            s'.Running? && s' == s.(client := s'.client, red := s.red + [input]) && Stepped(s.client, s'.client, input, s.blue)
  {
    hide Inv, HandleAll, Faithful, KnowsRemote, PlayFrame, Symmetric, Reading, SentMore;
    var next := Advanced(s.client);
    ClientEnds(sim, s.master, s.client, s.blue, s.red, s.toClient, s.toMaster, s.client.ended);
    ClientReadsExactly(sim, s.master, next, s.blue, s.red, s.toClient, s.toMaster);
    MeOf(sim, s);
    PlayedFields(sim, HandleAll(sim, next).peer, input, s.blue);
    SentLast(HandleAll(sim, next).peer.sent, InputPacket(PlayFrame(sim, HandleAll(sim, next).peer, input).window));
  }

  lemma SentLast(sent: seq<Packet>, packet: Packet)
    ensures var sent' := sent + [packet]; sent'[|sent'| - 1] == packet && sent'[..|sent'| - 1] == sent
  {
  }

  lemma MeOf<S>(sim: Sim<S>, s: Session<S>)
    requires Safe(sim, s)
    ensures s.master.rb.me == 0 && s.client.rb.me == 1
  {
  }

  /** After any run on time, a fixed step of a peer handles its packets, and sends, exactly by the account. */
  lemma StepsByAccount<S(!new)>(sim: Sim<S>, guard: Guard, actions: seq<Action>, player: nat, input: Input)
    requires Symmetric(sim) && PlayedOnTime(sim, guard, actions + [Step(player, input)]) && player < 2
    ensures var s, s' := Run(sim, guard, actions), Run(sim, guard, actions + [Step(player, input)]);
            && s.Running?
            && var p := if player == 0 then s.master else s.client;
               (Active(p) && p.rb.currentFrame + 1 < GAME_FRAMES ==>
                  && s'.Running?
                  && if player == 0
                     then s' == s.(master := s'.master, blue := s.blue + [input]) && Stepped(s.master, s'.master, input, s.red)
                     else s' == s.(client := s'.client, red := s.red + [input]) && Stepped(s.client, s'.client, input, s.blue))
  {
    hide Run, Do, HandledOnTime, Safe, Stepped;
    assert (actions + [Step(player, input)])[..|actions|] == actions;
    OnTimeBefore(sim, guard, actions, Step(player, input));
    RunSafe(sim, guard, actions);
    RunOneMore(sim, guard, actions, Step(player, input));
    var s := Run(sim, guard, actions);
    SafeRuns(sim, s);
    var p := if player == 0 then s.master else s.client;
    if Active(p) && p.rb.currentFrame + 1 < GAME_FRAMES {
      if player == 0 {
        MasterStepsExactly(sim, s, input);
      } else {
        ClientStepsExactly(sim, s, input);
      }
    }
  }

  lemma SafeRuns<S>(sim: Sim<S>, s: Session<S>)
    requires Safe(sim, s)
    ensures s.Running?
  {
  }

  lemma RunOneMore<S>(sim: Sim<S>, guard: Guard, actions: seq<Action>, a: Action)
    ensures Run(sim, guard, actions + [a]) == Do(sim, Run(sim, guard, actions), a)
  {
    assert (actions + [a])[..|actions|] == actions;
  }

  lemma OnTimeBefore<S>(sim: Sim<S>, guard: Guard, actions: seq<Action>, a: Action)
    ensures PlayedOnTime(sim, guard, actions + [a]) <==>
            && PlayedOnTime(sim, guard, actions)
            && var s := Run(sim, guard, actions); (s.Running? && a.Step? && a.player == 0 ==> StepsOnTime(sim, s.master))
  {
    assert (actions + [a])[..|actions|] == actions;
  }
}
