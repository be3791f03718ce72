/** Value-level specification of the rollback object (common/include/rollback.h,
    common/src/rollback.cpp), and what its operations guarantee. */
module RollbackSpec {
  import opened Inputs
  import opened Simulation

  /** All fields of a Rollback, with the two games replaced by their states. `table[p][f]` is the
      input stored for player `p` at frame `f`; `last[p]` the last one known of player `p`. */
  datatype RollbackState<S> = RollbackState(
    me: int,
    current: S,
    confirmed: S,
    currentFrame: int,
    lastRemote: int,
    frameToConfirm: int,
    confirmedFrame: int,
    last: seq<Input>,
    table: seq<seq<Input>>)

  /** Index ranges and the link between the two confirmation counters; kept by every operation. */
  predicate Shaped<S>(r: RollbackState<S>) {
    && (r.me == 0 || r.me == 1)
    && |r.last| == 2 && |r.table| == 2
    && |r.table[0]| == GAME_FRAMES && |r.table[1]| == GAME_FRAMES
    && -1 <= r.lastRemote <= r.currentFrame <= GAME_FRAMES
    && r.lastRemote < GAME_FRAMES
    && 0 <= r.frameToConfirm <= GAME_FRAMES
    && r.confirmedFrame == r.frameToConfirm - 1
  }

  function EmptyRow(): seq<Input> {
    seq(GAME_FRAMES, i => NO_INPUT)
  }

  function Fresh<S>(sim: Sim<S>, me: int): RollbackState<S> {
    RollbackState(me, sim.start, sim.start, -1, -1, 0, -1, [NO_INPUT, NO_INPUT], [EmptyRow(), EmptyRow()])
  }

  /** Store an input of player `p` and make it that player's last known one. */
  function Record<S>(r: RollbackState<S>, p: nat, f: FrameInput): (r': RollbackState<S>)
    requires Shaped(r) && p < 2 && 0 <= f.frame < GAME_FRAMES
    ensures Shaped(r')
  {
    r.(table := r.table[p := r.table[p][f.frame := f.input]], last := r.last[p := f.input])
  }

  // ----- receiving remote inputs -----

  /** Does the packet reach past what is already known? */
  predicate HasNews<S>(r: RollbackState<S>, entries: seq<FrameInput>)
    requires entries != []
  {
    entries[|entries| - 1].frame - r.lastRemote >= 1
  }

  /** Position of the newest entry that is used: the last one, or that of the local current frame
      when the packet runs ahead of it. */
  function NewestUsed<S>(r: RollbackState<S>, entries: seq<FrameInput>): nat
    requires entries != []
  {
    if entries[|entries| - 1].frame > r.currentFrame then FindFrame(entries, r.currentFrame) else |entries| - 1
  }

  /** No look-up of `SetOtherPlayerInput` goes past the end of the packet. */
  predicate Readable<S>(r: RollbackState<S>, entries: seq<FrameInput>) {
    && entries != []
    && (HasNews(r, entries) ==>
          && NewestUsed(r, entries) < |entries|
          && FindFrame(entries, r.lastRemote + 1) + (entries[NewestUsed(r, entries)].frame - r.lastRemote) <= |entries|)
  }

  /** The input the packet gives for a frame that was missing so far. */
  function Missing<S>(r: RollbackState<S>, entries: seq<FrameInput>, frame: int): Input
    requires Readable(r, entries) && HasNews(r, entries)
    requires r.lastRemote < frame <= entries[NewestUsed(r, entries)].frame
  {
    entries[FindFrame(entries, r.lastRemote + 1) + (frame - r.lastRemote - 1)].input
  }

  /** The remote row after a packet: older frames untouched, received frames stored, the last one
      held up to the current frame. */
  function FilledRow<S>(r: RollbackState<S>, row: seq<Input>, entries: seq<FrameInput>): (row': seq<Input>)
    requires Readable(r, entries) && HasNews(r, entries)
    ensures |row'| == |row|
  {
    var newest := entries[NewestUsed(r, entries)];
    seq(|row|, f requires 0 <= f < |row| =>
      if f < newest.frame then (if r.lastRemote < f then Missing(r, entries, f) else row[f])
      else if f <= r.currentFrame then newest.input
      else row[f])
  }

  /** Re-simulate when nothing was known before, or when some received input is not the one that was
      being predicted. */
  predicate MustRollback<S>(r: RollbackState<S>, entries: seq<FrameInput>, p: nat)
    requires Readable(r, entries) && HasNews(r, entries) && p < |r.last|
  {
    || r.lastRemote == -1
    || exists f: int :: r.lastRemote < f <= entries[NewestUsed(r, entries)].frame && Missing(r, entries, f) != r.last[p]
  }

  /** A row in which the missing inputs have been stored and the newest one held is the filled row. */
  lemma StoredIsFilled<S>(r: RollbackState<S>, row: seq<Input>, stored: seq<Input>, entries: seq<FrameInput>)
    requires Readable(r, entries) && HasNews(r, entries) && |stored| == |row|
    requires forall f :: 0 <= f < |row| ==>
               stored[f] == var missing, newest := FindFrame(entries, r.lastRemote + 1), entries[NewestUsed(r, entries)];
                            if newest.frame <= f <= r.currentFrame then newest.input
                            else if r.lastRemote < f <= newest.frame then entries[missing + (f - r.lastRemote - 1)].input
                            else row[f]
    requires -1 <= r.lastRemote <= r.currentFrame
    ensures stored == FilledRow(r, row, entries)
  {
    assert entries[NewestUsed(r, entries)].frame <= r.currentFrame;
  }

  /** The comparisons made while storing decide whether to re-simulate. */
  lemma ComparedIsMustRollback<S>(r: RollbackState<S>, entries: seq<FrameInput>, mispredicted: bool, p: nat)
    requires Readable(r, entries) && HasNews(r, entries) && p < |r.last| && -1 <= r.lastRemote
    requires var missing, newest := FindFrame(entries, r.lastRemote + 1), entries[NewestUsed(r, entries)].frame;
             mispredicted <==>
               && r.lastRemote > -1
               && exists k :: missing <= k < missing + (newest - r.lastRemote) && entries[k].input != r.last[p]
    ensures r.lastRemote == -1 || mispredicted <==> MustRollback(r, entries, p)
  {
    var missing, newest := FindFrame(entries, r.lastRemote + 1), entries[NewestUsed(r, entries)].frame;
    assert forall k :: missing <= k < missing + (newest - r.lastRemote) ==>
        entries[k].input == Missing(r, entries, k - missing + r.lastRemote + 1);
  }

  /** The game `DoRollback` leaves: the confirmed one, replayed up to the frame before the current one. */
  function Resimulated<S>(sim: Sim<S>, r: RollbackState<S>): S
    requires Shaped(r)
  {
    Replay(sim, r.me, r.confirmed, r.table[0], r.table[1], r.confirmedFrame + 1, r.currentFrame)
  }

  /** `SetOtherPlayerInput`: take a packet of player `p`'s inputs. */
  function Receive<S>(sim: Sim<S>, r: RollbackState<S>, entries: seq<FrameInput>, p: nat): (r': RollbackState<S>)
    requires Shaped(r) && 0 <= r.currentFrame < GAME_FRAMES && p < 2
    requires Readable(r, entries)
    ensures Shaped(r')
  {
    if !HasNews(r, entries) then r
    else
      var newest := entries[NewestUsed(r, entries)];
      var filled := r.(table := r.table[p := FilledRow(r, r.table[p], entries)]);
      filled.(current := if MustRollback(r, entries, p) then Resimulated(sim, filled) else r.current,
              last := r.last[p := newest.input],
              lastRemote := newest.frame)
  }

  // ----- confirming -----

  /** `ConfirmFrame` without its result: advance the confirmed game by one frame of stored inputs. */
  function Confirm<S>(sim: Sim<S>, r: RollbackState<S>): (r': RollbackState<S>)
    requires Shaped(r) && r.frameToConfirm < GAME_FRAMES
    ensures Shaped(r')
  {
    r.(confirmed := Play(sim, r.me, r.confirmed, r.table[0][r.frameToConfirm], r.table[1][r.frameToConfirm]),
       frameToConfirm := r.frameToConfirm + 1,
       confirmedFrame := r.confirmedFrame + 1)
  }

  function ConfirmChecksum<S>(sim: Sim<S>, r: RollbackState<S>): int
    requires Shaped(r) && r.frameToConfirm < GAME_FRAMES
  {
    sim.checksum(Confirm(sim, r).confirmed)
  }

  // ----- what the speculative game is -----

  /** A player's row as it is predicted after `known` inputs: the known ones, then the last of them held. */
  function Predicted(row: seq<Input>, known: nat, n: nat): (s: seq<Input>)
    requires known <= |row|
    ensures |s| == n
  {
    seq(n, i requires 0 <= i < n =>
      if i < known then row[i] else if known == 0 then NO_INPUT else row[known - 1])
  }

  /** The true game of the first `n` frames, with the rows named as peer `me` names them. */
  function TruthFor<S>(sim: Sim<S>, me: int, own: seq<Input>, other: seq<Input>, n: nat): S
    requires n <= |own| && n <= |other|
  {
    if me == 0 then Truth(sim, own, other, n) else Truth(sim, other, own, n)
  }

  /** The full replay from the start over the own inputs and the predicted remote row. */
  function Speculation<S>(sim: Sim<S>, me: int, own: seq<Input>, other: seq<Input>, known: nat): S
    requires known <= |other|
  {
    TruthFor(sim, me, own, Predicted(other, known, |own|), |own|)
  }

  /** What a peer knows of the two input rows: `own` are the inputs it recorded, `other` the ones the
      remote player recorded on its side, of which the first `lastRemote + 1` have arrived. */
  ghost predicate Knows<S>(r: RollbackState<S>, own: seq<Input>, other: seq<Input>) {
    && Shaped(r)
    && |own| - 1 <= r.currentFrame <= |own| <= GAME_FRAMES
    && r.lastRemote < |other|
    && (forall f :: 0 <= f < |own| ==> r.table[r.me][f] == own[f])
    && (forall f :: |own| <= f < GAME_FRAMES ==> r.table[r.me][f] == NO_INPUT)
    && (forall f :: 0 <= f <= r.lastRemote ==> r.table[1 - r.me][f] == other[f])
    && r.last[1 - r.me] == (if r.lastRemote == -1 then NO_INPUT else other[r.lastRemote])
    && r.frameToConfirm <= |own| && r.frameToConfirm <= r.lastRemote + 1
  }

  /** The state of a match seen by one peer: the confirmed game is the true game of the confirmed
      frames, and the speculative game is the full replay over own inputs and the predicted row. */
  ghost predicate Faithful<S>(sim: Sim<S>, r: RollbackState<S>, own: seq<Input>, other: seq<Input>) {
    && Knows(r, own, other)
    && r.confirmed == TruthFor(sim, r.me, own, other, r.frameToConfirm)
    && r.current == Speculation(sim, r.me, own, other, r.lastRemote + 1)
  }
}
