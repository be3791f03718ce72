/** What the rollback operations preserve, for packets that are resend windows of the remote player. */
module RollbackLaws {
  import opened Inputs
  import opened Simulation
  import opened RollbackSpec

  function Max(a: int, b: int): int { if a < b then b else a }
  function Min(a: int, b: int): int { if a < b then a else b }

  /** A packet as a peer meets it: the remote inputs first, ..., end - 1, reaching back to a frame
      that is neither past the first missing one nor past the current one. */
  ghost predicate Deliverable<S>(r: RollbackState<S>, entries: seq<FrameInput>, other: seq<Input>, first: nat, end: nat) {
    && first < end <= |other|
    && entries == Window(other, first, end)
    && first <= r.lastRemote + 1
    && first <= r.currentFrame
  }

  /** The last remote frame known after the packet. */
  function KnownAfter<S>(r: RollbackState<S>, end: nat): int {
    Max(r.lastRemote, Min(end - 1, r.currentFrame))
  }

  /** No look-up goes past the end of such a packet, and its entries are where they are looked for. */
  lemma DeliverableIsReadable<S>(r: RollbackState<S>, entries: seq<FrameInput>, other: seq<Input>, first: nat, end: nat)
    requires Shaped(r) && Deliverable(r, entries, other, first, end)
    ensures Readable(r, entries)
    ensures HasNews(r, entries) <==> r.lastRemote < end - 1
    ensures HasNews(r, entries) ==>
              entries[NewestUsed(r, entries)] == FrameInput(other[Min(end - 1, r.currentFrame)], Min(end - 1, r.currentFrame))
    ensures HasNews(r, entries) ==>
              forall f :: r.lastRemote < f <= Min(end - 1, r.currentFrame) ==> Missing(r, entries, f) == other[f]
  {
    hide FindFrame;
    FindInWindow(other, first, end, r.currentFrame);
    FindInWindow(other, first, end, r.lastRemote + 1);
  }

  /** One slot of the remote row after the packet. */
  lemma FilledSlot<S>(r: RollbackState<S>, row: seq<Input>, entries: seq<FrameInput>, other: seq<Input>,
                      first: nat, end: nat, f: int)
    requires Shaped(r) && 0 <= r.currentFrame < GAME_FRAMES && 0 <= f < |row|
    requires Deliverable(r, entries, other, first, end) && r.lastRemote < end - 1
    ensures Readable(r, entries) && HasNews(r, entries)
    ensures FilledRow(r, row, entries)[f] ==
            var newest := Min(end - 1, r.currentFrame);
            if f <= r.lastRemote && f < newest then row[f]
            else if f <= newest then other[f]
            else if f <= r.currentFrame then other[newest]
            else row[f]
  {
    hide FindFrame, Deliverable, Missing;
    DeliverableIsReadable(r, entries, other, first, end);
  }

  /** The input-table contract of `SetOtherPlayerInput`: older frames untouched, received inputs up
      to the new last remote frame, that input held up to the current frame, nothing else changed. */
  lemma InputTable<S>(sim: Sim<S>, r: RollbackState<S>, entries: seq<FrameInput>, other: seq<Input>, p: nat,
                      first: nat, end: nat)
    requires Shaped(r) && 0 <= r.currentFrame < GAME_FRAMES && p < 2
    requires Deliverable(r, entries, other, first, end) && r.lastRemote < end - 1
    ensures Readable(r, entries)
    ensures var r', newest := Receive(sim, r, entries, p), Min(end - 1, r.currentFrame);
            && r'.lastRemote == newest
            && r'.last == r.last[p := other[newest]]
            && r'.table == r.table[p := r'.table[p]] && |r'.table[p]| == GAME_FRAMES
            && forall f :: 0 <= f < GAME_FRAMES ==>
                 r'.table[p][f] == if f <= r.lastRemote && f < newest then r.table[p][f]
                                   else if f <= newest then other[f]
                                   else if f <= r.currentFrame then other[newest]
                                   else r.table[p][f]
  {
    DeliverableIsReadable(r, entries, other, first, end);
    forall f | 0 <= f < GAME_FRAMES
      ensures FilledRow(r, r.table[p], entries)[f] ==
                var newest := Min(end - 1, r.currentFrame);
                if f <= r.lastRemote && f < newest then r.table[p][f]
                else if f <= newest then other[f]
                else if f <= r.currentFrame then other[newest]
                else r.table[p][f]
    {
      FilledSlot(r, r.table[p], entries, other, first, end, f);
    }
    assert Receive(sim, r, entries, p).table[p] == FilledRow(r, r.table[p], entries);
  }

  /** Truths depend only on the inputs of their frames. */
  lemma TruthCongruent<S>(sim: Sim<S>, me: int, n: nat, own: seq<Input>, other: seq<Input>,
                          own': seq<Input>, other': seq<Input>)
    requires n <= |own| && n <= |other| && n <= |own'| && n <= |other'|
    requires forall f :: 0 <= f < n ==> own[f] == own'[f] && other[f] == other'[f]
    ensures TruthFor(sim, me, own, other, n) == TruthFor(sim, me, own', other', n)
  {
    if me == 0 {
      ReplayCongruent(sim, 0, sim.start, 0, n, own, other, own', other');
    } else {
      ReplayCongruent(sim, 0, sim.start, 0, n, other, own, other', own');
    }
  }

  /** Replaying a peer's own table from a true state gives a true state. */
  lemma ReplayFromTruth<S(!new)>(sim: Sim<S>, me: int, table: seq<seq<Input>>, c: nat, n: nat,
                                 own: seq<Input>, other: seq<Input>)
    requires Symmetric(sim) && (me == 0 || me == 1) && |table| == 2 && |table[0]| == |table[1]|
    requires c <= n <= |own| && n <= |other| && n <= |table[0]|
    requires forall f :: c <= f < n ==> table[me][f] == own[f] && table[1 - me][f] == other[f]
    ensures Replay(sim, me, TruthFor(sim, me, own, other, c), table[0], table[1], c, n)
         == TruthFor(sim, me, own, other, n)
  {
    var s := TruthFor(sim, me, own, other, c);
    var blue, red := if me == 0 then own else other, if me == 0 then other else own;
    ReplayCongruent(sim, me, s, c, n, table[0], table[1], blue, red);
    ReplayOnEitherPeer(sim, me, s, blue, red, c, n);
    ReplaySplit(sim, 0, sim.start, blue, red, 0, c, n);
  }

  /** Copying the confirmed game and replaying gives the full speculative replay. */
  lemma ResimulatedIsSpeculation<S(!new)>(sim: Sim<S>, r: RollbackState<S>, own: seq<Input>, other: seq<Input>, known: nat)
    requires Symmetric(sim) && Shaped(r) && r.currentFrame == |own| && known <= |other|
    requires r.frameToConfirm <= |own| && r.frameToConfirm <= known
    requires r.confirmed == TruthFor(sim, r.me, own, other, r.frameToConfirm)
    requires forall f :: 0 <= f < |own| ==> r.table[r.me][f] == own[f]
    requires forall f :: 0 <= f < |own| ==> r.table[1 - r.me][f] == Predicted(other, known, |own|)[f]
    ensures Resimulated(sim, r) == Speculation(sim, r.me, own, other, known)
  {
    var held := Predicted(other, known, |own|);
    TruthCongruent(sim, r.me, r.frameToConfirm, own, other, own, held);
    ReplayFromTruth(sim, r.me, r.table, r.frameToConfirm, |own|, own, held);
  }

  /** `SetOtherPlayerInput` with the re-simulation always done. */
  function ReceiveReplaying<S>(sim: Sim<S>, r: RollbackState<S>, entries: seq<FrameInput>, p: nat): RollbackState<S>
    requires Shaped(r) && 0 <= r.currentFrame < GAME_FRAMES && p < 2
    requires Readable(r, entries)
  {
    var r' := Receive(sim, r, entries, p);
    r'.(current := Resimulated(sim, r'))
  }

  /** A row that holds the remote inputs up to `newest` and then repeats the last is the predicted row. */
  lemma FilledKnows<S>(r: RollbackState<S>, r': RollbackState<S>, own: seq<Input>, other: seq<Input>, newest: nat)
    requires Knows(r, own, other) && r.currentFrame == |own| < GAME_FRAMES
    requires r.lastRemote <= newest <= r.currentFrame && newest < |other|
    requires Shaped(r') && r'.me == r.me && r'.currentFrame == r.currentFrame && r'.frameToConfirm == r.frameToConfirm
    requires r'.lastRemote == newest && r'.last[1 - r.me] == other[newest]
    requires r'.table[r.me] == r.table[r.me]
    requires forall f :: 0 <= f < GAME_FRAMES ==>
               r'.table[1 - r.me][f] == if f <= r.lastRemote && f < newest then r.table[1 - r.me][f]
                                        else if f <= newest then other[f]
                                        else if f <= r.currentFrame then other[newest]
                                        else r.table[1 - r.me][f]
    ensures Knows(r', own, other)
    ensures forall f {:trigger r'.table[1 - r.me][f]} :: 0 <= f < |own| ==>
              r'.table[1 - r.me][f] == Predicted(other, newest + 1, |own|)[f]
  {
    var q := 1 - r.me;
    forall f | 0 <= f < |own| ensures r'.table[q][f] == Predicted(other, newest + 1, |own|)[f] {
      assert f <= r.lastRemote ==> r.table[q][f] == other[f];
    }
  }

  /** The remote row after a packet is the predicted one, and the rest of what is known is kept. */
  lemma {:induction false} ReceiveKnows<S>(sim: Sim<S>, r: RollbackState<S>, entries: seq<FrameInput>,
                                           own: seq<Input>, other: seq<Input>, first: nat, end: nat)
    requires Knows(r, own, other) && r.currentFrame == |own| < GAME_FRAMES
    requires Deliverable(r, entries, other, first, end) && r.lastRemote < end - 1
    ensures Readable(r, entries)
    ensures Knows(Receive(sim, r, entries, 1 - r.me), own, other)
    ensures Receive(sim, r, entries, 1 - r.me).lastRemote == KnownAfter(r, end)
    ensures forall f {:trigger Receive(sim, r, entries, 1 - r.me).table[1 - r.me][f]} :: 0 <= f < |own| ==>
              Receive(sim, r, entries, 1 - r.me).table[1 - r.me][f] == Predicted(other, KnownAfter(r, end) + 1, |own|)[f]
  {
    hide Receive, Readable, Predicted, FindFrame, MustRollback, Resimulated;
    InputTable(sim, r, entries, other, 1 - r.me, first, end);
    ReceiveFields(sim, r, entries, 1 - r.me);
    FilledKnows(r, Receive(sim, r, entries, 1 - r.me), own, other, Min(end - 1, r.currentFrame));
  }

  /** Without a mismatch the prediction was right, so the predicted row has not changed. */
  lemma NoMismatch<S>(r: RollbackState<S>, entries: seq<FrameInput>, own: seq<Input>, other: seq<Input>,
                      first: nat, end: nat)
    requires Knows(r, own, other) && r.currentFrame == |own| < GAME_FRAMES
    requires Deliverable(r, entries, other, first, end) && r.lastRemote < end - 1
    requires Readable(r, entries) && !MustRollback(r, entries, 1 - r.me)
    ensures Predicted(other, KnownAfter(r, end) + 1, |own|) == Predicted(other, r.lastRemote + 1, |own|)
  {
    DeliverableIsReadable(r, entries, other, first, end);
    forall f | r.lastRemote < f <= KnownAfter(r, end) ensures other[f] == other[r.lastRemote] {
      assert Missing(r, entries, f) == r.last[1 - r.me];
    }
  }

  /** What a packet does not change, and when it re-simulates. */
  lemma ReceiveFields<S>(sim: Sim<S>, r: RollbackState<S>, entries: seq<FrameInput>, p: nat)
    requires Shaped(r) && 0 <= r.currentFrame < GAME_FRAMES && p < 2
    requires Readable(r, entries)
    ensures var r' := Receive(sim, r, entries, p);
            && (HasNews(r, entries) ==>
                  r'.current == if MustRollback(r, entries, p) then Resimulated(sim, r') else r.current)
            && r'.confirmed == r.confirmed && r'.frameToConfirm == r.frameToConfirm
            && r'.currentFrame == r.currentFrame && r'.me == r.me
  {
  }

  /** A peer whose rows have grown is faithful, and re-simulating would not change it, when its game
      is the re-simulated one or the prediction has not changed. */
  lemma GrownIsFaithful<S(!new)>(sim: Sim<S>, r: RollbackState<S>, r': RollbackState<S>, own: seq<Input>, other: seq<Input>)
    requires Symmetric(sim) && Faithful(sim, r, own, other) && r.currentFrame == |own|
    requires Knows(r', own, other)
    requires r'.confirmed == r.confirmed && r'.frameToConfirm == r.frameToConfirm
    requires r'.currentFrame == r.currentFrame && r'.me == r.me
    requires forall f {:trigger r'.table[1 - r.me][f]} :: 0 <= f < |own| ==>
               r'.table[1 - r.me][f] == Predicted(other, r'.lastRemote + 1, |own|)[f]
    requires || r'.current == Resimulated(sim, r')
             || (&& r'.current == r.current
                 && Predicted(other, r'.lastRemote + 1, |own|) == Predicted(other, r.lastRemote + 1, |own|))
    ensures Faithful(sim, r', own, other) && r'.current == Resimulated(sim, r')
  {
    hide Resimulated, Symmetric, TruthFor, Predicted;
    ResimulatedIsSpeculation(sim, r', own, other, r'.lastRemote + 1);
  }

  /** After a packet the speculative game is the full replay over the new prediction, whether or not
      it was re-simulated; so eliding the re-simulation is invisible. */
  lemma ElisionSound<S(!new)>(sim: Sim<S>, r: RollbackState<S>, entries: seq<FrameInput>,
                              own: seq<Input>, other: seq<Input>, first: nat, end: nat)
    requires Symmetric(sim) && Faithful(sim, r, own, other) && r.currentFrame == |own| < GAME_FRAMES
    requires Deliverable(r, entries, other, first, end) && r.lastRemote < end - 1
    ensures Readable(r, entries)
    ensures Receive(sim, r, entries, 1 - r.me) == ReceiveReplaying(sim, r, entries, 1 - r.me)
    ensures Faithful(sim, Receive(sim, r, entries, 1 - r.me), own, other)
  {
    hide Receive, FilledRow, Missing, MustRollback, NewestUsed, Resimulated, Predicted, Speculation, TruthFor, Deliverable;
    DeliverableIsReadable(r, entries, other, first, end);
    ReceiveKnows(sim, r, entries, own, other, first, end);
    ReceiveFields(sim, r, entries, 1 - r.me);
    if !MustRollback(r, entries, 1 - r.me) {
      NoMismatch(r, entries, own, other, first, end);
    }
    GrownIsFaithful(sim, r, Receive(sim, r, entries, 1 - r.me), own, other);
  }

  /** A packet of either kind, new or not, leaves the peer faithful. */
  lemma {:induction false} ReceiveFaithful<S(!new)>(sim: Sim<S>, r: RollbackState<S>, entries: seq<FrameInput>,
                                 own: seq<Input>, other: seq<Input>, first: nat, end: nat)
    requires Symmetric(sim) && Faithful(sim, r, own, other) && r.currentFrame == |own| < GAME_FRAMES
    requires Deliverable(r, entries, other, first, end)
    ensures Readable(r, entries)
    ensures Faithful(sim, Receive(sim, r, entries, 1 - r.me), own, other)
    ensures Receive(sim, r, entries, 1 - r.me).lastRemote == KnownAfter(r, end)
  {
    if r.lastRemote < end - 1 {
      ElisionSound(sim, r, entries, own, other, first, end);
      ReceiveKnows(sim, r, entries, own, other, first, end);
    } else {
      DeliverableIsReadable(r, entries, other, first, end);
    }
  }

  /** Confirming a frame whose two inputs are known advances the true confirmed game. */
  lemma ConfirmFaithful<S(!new)>(sim: Sim<S>, r: RollbackState<S>, own: seq<Input>, other: seq<Input>)
    requires Symmetric(sim) && Faithful(sim, r, own, other)
    requires r.frameToConfirm < |own| && r.frameToConfirm <= r.lastRemote
    ensures Faithful(sim, Confirm(sim, r), own, other)
    ensures ConfirmChecksum(sim, r) == sim.checksum(TruthFor(sim, r.me, own, other, r.frameToConfirm + 1))
  {
    var c := r.frameToConfirm;
    assert Play(sim, r.me, r.confirmed, r.table[0][c], r.table[1][c]) == TruthFor(sim, r.me, own, other, c + 1);
  }

  /** Counting up the frame changes nothing else. */
  lemma AdvanceFaithful<S>(sim: Sim<S>, r: RollbackState<S>, own: seq<Input>, other: seq<Input>)
    requires Faithful(sim, r, own, other) && |own| == r.currentFrame + 1
    ensures Faithful(sim, r.(currentFrame := r.currentFrame + 1), own, other)
  {
  }

  /** One more frame of speculation extends the replay by the new input and the held remote one. */
  lemma SpeculationStep<S(!new)>(sim: Sim<S>, me: int, own: seq<Input>, other: seq<Input>, known: nat, input: Input)
    requires Symmetric(sim) && (me == 0 || me == 1) && known <= |other| && known <= |own| + 1
    ensures var held := if known == 0 then NO_INPUT else other[known - 1];
            (Speculation(sim, me, own + [input], other, known)
             == Play(sim, me, Speculation(sim, me, own, other, known),
                     if me == 0 then input else held, if me == 0 then held else input))
  {
    var n := |own|;
    TruthCongruent(sim, me, n, own, Predicted(other, known, n), own + [input], Predicted(other, known, n + 1));
  }

  lemma RecordKnows<S>(r: RollbackState<S>, own: seq<Input>, other: seq<Input>, input: Input, played: S)
    requires Knows(r, own, other) && r.currentFrame == |own| < GAME_FRAMES
    ensures Knows(Record(r, r.me, FrameInput(input, r.currentFrame)).(current := played), own + [input], other)
  {
  }

  /** Recording the local input of the current frame and stepping the speculative game. */
  lemma PlayFaithful<S(!new)>(sim: Sim<S>, r: RollbackState<S>, own: seq<Input>, other: seq<Input>, input: Input)
    requires Symmetric(sim) && Faithful(sim, r, own, other)
    requires r.currentFrame == |own| < GAME_FRAMES
    ensures var recorded := Record(r, r.me, FrameInput(input, r.currentFrame));
            var played := Play(sim, r.me, r.current, recorded.last[0], recorded.last[1]);
            Faithful(sim, recorded.(current := played), own + [input], other)
  {
    hide Predicted, Speculation, TruthFor;
    var recorded := Record(r, r.me, FrameInput(input, r.currentFrame));
    RecordKnows(r, own, other, input, Play(sim, r.me, r.current, recorded.last[0], recorded.last[1]));
    TruthCongruent(sim, r.me, r.frameToConfirm, own, other, own + [input], other);
    SpeculationStep(sim, r.me, own, other, r.lastRemote + 1, input);
  }

  /** More remote inputs recorded on the other side change nothing a peer can see. */
  lemma RemoteProgress<S>(sim: Sim<S>, r: RollbackState<S>, own: seq<Input>, other: seq<Input>, input: Input)
    requires Faithful(sim, r, own, other)
    ensures Faithful(sim, r, own, other + [input])
  {
    var other' := other + [input];
    TruthCongruent(sim, r.me, r.frameToConfirm, own, other, own, other');
    assert Predicted(other, r.lastRemote + 1, |own|) == Predicted(other', r.lastRemote + 1, |own|);
  }

  lemma FreshFaithful<S>(sim: Sim<S>, me: int)
    requires me == 0 || me == 1
    ensures Faithful(sim, Fresh(sim, me), [], [])
  {
  }
}
