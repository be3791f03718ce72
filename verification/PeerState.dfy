/** Value-level specification of one peer's message handling (common/src/application.cpp). */
module PeerSpec {
  import opened Inputs
  import opened Simulation
  import opened RollbackSpec

  /** Network messages. Input packets travel unreliably; a frame confirmation carries the checksum and
      the master's resend window, and is answered by an acknowledgement without data. */
  datatype Packet =
    | InputPacket(entries: seq<FrameInput>)
    | Confirmation(checksum: int, entries: seq<FrameInput>)
    | Acknowledgement

  /** Where the confirmation loop stops: the code stops at the first frame past the current one. Stopping
      at the current frame already is the alternative that the results are compared with. */
  datatype Guard = PastCurrent | AtCurrent

  /** One peer: the rollback object, the resend window (`inputs_` and `frames_`, which are always
      updated together), the queue of received packets, everything sent so far, the number of
      "Not same checksum" reports, whether the match has ended, and the guard it confirms with. */
  datatype Peer<S> = Peer(
    rb: RollbackState<S>,
    window: seq<FrameInput>,
    queue: seq<Packet>,
    sent: seq<Packet>,
    errors: nat,
    ended: bool,
    guard: Guard)

  /** How handling one packet ends: the next packet is taken, the packet stays at the head and
      handling stops for this frame, or the code reads past the end of a container. */
  datatype Outcome<S> = Continue(peer: Peer<S>) | Stop(peer: Peer<S>) | Fault

  function FreshPeer<S>(sim: Sim<S>, me: int, guard: Guard): Peer<S> {
    Peer(Fresh(sim, me), [], [], [], 0, false, guard)
  }

  predicate WellFormed<S>(p: Peer<S>) {
    Shaped(p.rb) && 0 <= p.rb.currentFrame < GAME_FRAMES
  }

  // ----- SendFrameConfirmation -----

  /** Where the confirmation loop ends: before the local current frame if the packet runs ahead of it. */
  function ConfirmEnd<S>(r: RollbackState<S>, entries: seq<FrameInput>): nat
    requires entries != []
  {
    if entries[|entries| - 1].frame > r.currentFrame then FindFrame(entries, r.currentFrame) else |entries|
  }

  predicate StopsAt<S>(p: Peer<S>, frame: int) {
    if p.guard.PastCurrent? then frame > p.rb.currentFrame else frame >= p.rb.currentFrame
  }

  /** The confirmation loop from packet position `i`: confirm the next frame and send its checksum with
      the resend window, until `end` or an entry the guard stops at. */
  function ConfirmLoop<S>(sim: Sim<S>, p: Peer<S>, entries: seq<FrameInput>, i: nat, end: nat): (o: Outcome<S>)
    requires WellFormed(p)
    ensures !o.Fault? ==> WellFormed(o.peer) && o.peer.guard == p.guard && o.peer.queue == p.queue && o.Continue?
    decreases |entries| - i
  {
    if i == end then Continue(p)
    else if i >= |entries| then Fault
    else if StopsAt(p, entries[i].frame) then Continue(p)
    else if p.rb.frameToConfirm >= GAME_FRAMES then Fault
    else
      var confirmation := Confirmation(ConfirmChecksum(sim, p.rb), p.window);
      ConfirmLoop(sim, p.(rb := Confirm(sim, p.rb), sent := p.sent + [confirmation]), entries, i + 1, end)
  }

  function SendConfirmations<S>(sim: Sim<S>, p: Peer<S>, entries: seq<FrameInput>): (o: Outcome<S>)
    requires WellFormed(p) && entries != []
    ensures !o.Fault? ==> WellFormed(o.peer) && o.peer.guard == p.guard && o.peer.queue == p.queue && o.Continue?
  {
    ConfirmLoop(sim, p, entries, FindFrame(entries, p.rb.frameToConfirm), ConfirmEnd(p.rb, entries))
  }

  // ----- HandlePacket -----

  predicate Stale<S>(r: RollbackState<S>, entries: seq<FrameInput>)
    requires entries != []
  {
    entries[|entries| - 1].frame < r.lastRemote
  }

  function HandleInput<S>(sim: Sim<S>, p: Peer<S>, entries: seq<FrameInput>): (o: Outcome<S>)
    requires WellFormed(p)
    ensures !o.Fault? ==> WellFormed(o.peer) && o.peer.guard == p.guard && o.peer.queue == p.queue
  {
    if entries == [] then Fault
    else if Stale(p.rb, entries) then Stop(p)
    else if !Readable(p.rb, entries) then Fault
    else
      var received := p.(rb := Receive(sim, p.rb, entries, 1 - p.rb.me));
      if p.rb.me == 0 then SendConfirmations(sim, received, entries) else Continue(received)
  }

  function DropOldest<S>(p: Peer<S>): (o: Outcome<S>)
    requires WellFormed(p)
    ensures !o.Fault? ==> WellFormed(o.peer) && o.peer.guard == p.guard && o.peer.queue == p.queue
  {
    if p.window == [] then Fault else Continue(p.(window := p.window[1..]))
  }

  /** The remote inputs a confirmation brings are taken first if they are new. */
  function TakeConfirmed<S>(sim: Sim<S>, p: Peer<S>, entries: seq<FrameInput>): (o: Outcome<S>)
    requires WellFormed(p)
    ensures !o.Fault? ==> WellFormed(o.peer) && o.peer.guard == p.guard && o.peer.queue == p.queue && o.Continue?
  {
    if entries == [] then Fault
    else if p.rb.lastRemote >= entries[|entries| - 1].frame then Continue(p)
    else if !Readable(p.rb, entries) then Fault
    else Continue(p.(rb := Receive(sim, p.rb, entries, 1 - p.rb.me)))
  }

  /** A confirmation on the client: confirm the same frame, compare the checksums, acknowledge. */
  function HandleConfirmation<S>(sim: Sim<S>, p: Peer<S>, checksum: int, entries: seq<FrameInput>): (o: Outcome<S>)
    requires WellFormed(p)
    ensures !o.Fault? ==> WellFormed(o.peer) && o.peer.guard == p.guard && o.peer.queue == p.queue
  {
    var taken := TakeConfirmed(sim, p, entries);
    if taken.Fault? || taken.peer.rb.frameToConfirm >= GAME_FRAMES then Fault
    else
      var rb := taken.peer.rb;
      var confirmed := taken.peer.(rb := Confirm(sim, rb));
      if ConfirmChecksum(sim, rb) != checksum then Stop(confirmed.(errors := p.errors + 1))
      else DropOldest(confirmed.(sent := p.sent + [Acknowledgement]))
  }

  /** One turn of the handling loop on the packet at the head of the queue. */
  function HandleHead<S>(sim: Sim<S>, p: Peer<S>): (o: Outcome<S>)
    requires WellFormed(p) && p.queue != []
    ensures o.Continue? ==> WellFormed(o.peer) && o.peer.guard == p.guard && o.peer.queue == p.queue[1..]
    ensures o.Stop? ==> WellFormed(o.peer) && o.peer.guard == p.guard && o.peer.queue == p.queue
  {
    var handled := match p.queue[0]
      case InputPacket(entries) => HandleInput(sim, p, entries)
      case Confirmation(checksum, entries) =>
        if p.rb.me == 0 then DropOldest(p) else HandleConfirmation(sim, p, checksum, entries)
      case Acknowledgement =>
        if p.rb.me == 0 then DropOldest(p) else Fault;
    if handled.Continue? then Continue(handled.peer.(queue := p.queue[1..])) else handled
  }

  /** `HandlePacket`: until the queue is empty or a packet stays at its head. */
  function HandleAll<S>(sim: Sim<S>, p: Peer<S>): (o: Outcome<S>)
    requires WellFormed(p)
    ensures !o.Fault? ==> WellFormed(o.peer) && o.peer.guard == p.guard
    decreases |p.queue|
  {
    if p.queue == [] then Stop(p)
    else
      var o := HandleHead(sim, p);
      if o.Continue? then HandleAll(sim, o.peer) else o
  }

  // ----- one fixed step -----

  /** The part of a fixed step after the packets: record and send the local input, play the frame. */
  function PlayFrame<S>(sim: Sim<S>, p: Peer<S>, input: Input): Peer<S>
    requires WellFormed(p)
  {
    var f := FrameInput(input, p.rb.currentFrame);
    var rb := Record(p.rb, p.rb.me, f);
    var window := p.window + [f];
    p.(rb := rb.(current := Play(sim, rb.me, rb.current, rb.last[0], rb.last[1])),
       window := window,
       sent := p.sent + [InputPacket(window)])
  }

  function Advanced<S>(p: Peer<S>): Peer<S> {
    p.(rb := p.rb.(currentFrame := p.rb.currentFrame + 1))
  }

  /** The inner loop of `Run`: count up the frame, end the match after the last one, otherwise handle
      packets and play the frame with the local input. */
  function FixedStep<S>(sim: Sim<S>, p: Peer<S>, input: Input): Outcome<S>
    requires Shaped(p.rb) && p.rb.currentFrame < GAME_FRAMES
  {
    var next := Advanced(p);
    if next.rb.currentFrame >= GAME_FRAMES then Continue(next.(ended := true))
    else
      var handled := HandleAll(sim, next);
      if handled.Fault? then Fault else Continue(PlayFrame(sim, handled.peer, input))
  }
}
