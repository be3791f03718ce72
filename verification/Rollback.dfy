/** The rollback object (common/include/rollback.h, common/src/rollback.cpp), updated in place. */
module RollbackObject {
  import opened Inputs
  import opened Simulation
  import opened RollbackSpec

  /** A game as the rollback code uses it: its state, the number of the player whose inputs it calls its
      own, and the two inputs of the next fixed update. */
  class Game<S> {
    const sim: Sim<S>
    const playerNbr: int
    var state: S
    var input: Input
    var otherInput: Input

    constructor (sim: Sim<S>, playerNbr: int)
      ensures this.sim == sim && this.playerNbr == playerNbr && state == sim.start
    {
      this.sim := sim;
      this.playerNbr := playerNbr;
      state := sim.start;
      input := NO_INPUT;
      otherInput := NO_INPUT;
    }

    method SetPlayerInput(input: Input)
      modifies this`input
      ensures this.input == input
    {
      this.input := input;
    }

    method SetOtherPlayerInput(input: Input)
      modifies this`otherInput
      ensures otherInput == input
    {
      otherInput := input;
    }

    method FixedUpdate()
      modifies this`state
      ensures state == sim.update(playerNbr, old(state), input, otherInput)
    {
      state := sim.update(playerNbr, state, input, otherInput);
    }

    method Copy(other: Game<S>)
      modifies this`state, this`input, this`otherInput
      ensures state == old(other.state) && input == old(other.input) && otherInput == old(other.otherInput)
    {
      state := other.state;
      input := other.input;
      otherInput := other.otherInput;
    }

    /** Give the game the input of one player and the other, then run one fixed update. */
    method PlayFrame(blue: Input, red: Input)
      requires playerNbr == 0 || playerNbr == 1
      modifies this
      ensures state == Play(sim, playerNbr, old(state), blue, red)
    {
      for p := 0 to 2
        invariant state == old(state)
        invariant p > 0 ==> if playerNbr == 0 then input == blue else otherInput == blue
        invariant p > 1 ==> if playerNbr == 1 then input == red else otherInput == red
      {
        var i := if p == 0 then blue else red;
        if playerNbr == p {
          SetPlayerInput(i);
        } else {
          SetOtherPlayerInput(i);
        }
      }
      FixedUpdate();
    }
  }

  /** Store the packet's inputs from position `missing` on in the slots after frame `known`, and see
      whether one of them is not the predicted one. */
  method StoreMissing(row: array<Input>, entries: seq<FrameInput>, missing: nat, known: int, newest: int,
                      predicted: Input)
    returns (mispredicted: bool)
    requires -1 <= known <= newest < row.Length && missing + (newest - known) <= |entries|
    modifies row
    ensures forall f :: 0 <= f < row.Length ==>
              row[f] == if known < f <= newest then entries[missing + (f - known - 1)].input else old(row[f])
    ensures mispredicted
       <==> known > -1 && exists k :: missing <= k < missing + (newest - known) && entries[k].input != predicted
  {
    var next, frame := missing, known + 1;
    mispredicted := false;
    while frame <= newest
      invariant known < frame <= newest + 1
      invariant next == missing + (frame - known - 1)
      invariant forall f :: 0 <= f < row.Length ==>
                  row[f] == if known < f < frame then entries[missing + (f - known - 1)].input else old(row[f])
      invariant mispredicted <==> known > -1 && exists k :: missing <= k < next && entries[k].input != predicted
    {
      var input := entries[next].input;
      if known > -1 && input != predicted {
        mispredicted := true;
      }
      row[frame] := input;
      next := next + 1;
      frame := frame + 1;
    }
  }

  /** Repeat the newest input up to the current frame. */
  method HoldNewest(row: array<Input>, newest: FrameInput, currentFrame: int)
    requires 0 <= newest.frame && currentFrame < row.Length
    modifies row
    ensures forall f :: 0 <= f < row.Length ==>
              row[f] == if newest.frame <= f <= currentFrame then newest.input else old(row[f])
  {
    var frame := newest.frame;
    while frame <= currentFrame
      invariant newest.frame <= frame && (frame <= currentFrame + 1 || frame == newest.frame)
      invariant forall f :: 0 <= f < row.Length ==>
                  row[f] == if newest.frame <= f < frame then newest.input else old(row[f])
    {
      row[frame] := newest.input;
      frame := frame + 1;
    }
  }

  class Rollback<S> {
    const sim: Sim<S>
    const current: Game<S>
    const confirmed: Game<S>
    var currentFrame: int
    var lastRemoteInputFrame: int
    var frameToConfirm: int
    var confirmedFrame: int
    const lastInputs: array<Input>
    const inputs: seq<array<Input>>

    ghost predicate Valid()
      reads this, current, confirmed, lastInputs, inputs
    {
      && current != confirmed
      && current.sim == sim && confirmed.sim == sim
      && current.playerNbr == confirmed.playerNbr
      && lastInputs.Length == 2
      && |inputs| == 2 && inputs[0] != inputs[1] && lastInputs != inputs[0] && lastInputs != inputs[1]
      && inputs[0].Length == GAME_FRAMES && inputs[1].Length == GAME_FRAMES
      && Shaped(View())
    }

    /** The fields as one value. */
    ghost function View(): RollbackState<S>
      reads this, current, confirmed, lastInputs, inputs
    {
      RollbackState(current.playerNbr, current.state, confirmed.state, currentFrame, lastRemoteInputFrame,
        frameToConfirm, confirmedFrame, lastInputs[..], Rows())
    }

    ghost function Rows(): seq<seq<Input>>
      reads inputs
    {
      if |inputs| == 2 then [inputs[0][..], inputs[1][..]] else []
    }

    /** `RegisterGame` on an object as `Reset` leaves it. */
    constructor (sim: Sim<S>, game: Game<S>)
      requires game.sim == sim && (game.playerNbr == 0 || game.playerNbr == 1) && game.state == sim.start
      ensures Valid() && current == game && this.sim == sim
      ensures fresh(confirmed) && fresh(lastInputs) && |inputs| == 2 && fresh(inputs[0]) && fresh(inputs[1])
      ensures View() == Fresh(sim, game.playerNbr)
    {
      this.sim := sim;
      current := game;
      confirmed := new Game(sim, game.playerNbr);
      currentFrame, lastRemoteInputFrame, frameToConfirm, confirmedFrame := -1, -1, 0, -1;
      lastInputs := new Input[2](i => NO_INPUT);
      var blue := new Input[GAME_FRAMES](i => NO_INPUT);
      var red := new Input[GAME_FRAMES](i => NO_INPUT);
      inputs := [blue, red];
      new;
      assert lastInputs[..] == [NO_INPUT, NO_INPUT];
      assert inputs[0][..] == EmptyRow() && inputs[1][..] == EmptyRow();
    }

    method IncreaseCurrentFrame()
      requires Valid() && currentFrame < GAME_FRAMES
      modifies this`currentFrame
      ensures Valid() && View() == old(View()).(currentFrame := old(currentFrame) + 1)
    {
      currentFrame := currentFrame + 1;
    }

    method SetPlayerInput(f: FrameInput, p: nat)
      requires Valid() && p < 2 && 0 <= f.frame < GAME_FRAMES
      modifies lastInputs, inputs[p]
      ensures Valid() && View() == Record(old(View()), p, f)
    {
      inputs[p][f.frame] := f.input;
      lastInputs[p] := f.input;
      assert inputs[p][..] == old(inputs[p][..])[f.frame := f.input];
      assert lastInputs[..] == old(lastInputs[..])[p := f.input];
    }

    method DoRollback()
      requires Valid()
      modifies current
      ensures Valid() && View() == old(View()).(current := Resimulated(sim, old(View())))
    {
      ghost var r := View();
      current.Copy(confirmed);
      var frame := confirmedFrame + 1;
      while frame < currentFrame
        invariant confirmedFrame + 1 <= frame && (frame <= currentFrame || frame == confirmedFrame + 1)
        invariant current.state == Replay(sim, r.me, r.confirmed, r.table[0], r.table[1], confirmedFrame + 1, frame)
      {
        current.PlayFrame(inputs[0][frame], inputs[1][frame]);
        frame := frame + 1;
      }
    }

    /** Fill a player's row from a packet with news. */
    lemma NewestFits(r: RollbackState<S>, entries: seq<FrameInput>)
      requires Shaped(r) && 0 <= r.currentFrame < GAME_FRAMES && Readable(r, entries) && HasNews(r, entries)
      ensures 0 <= entries[NewestUsed(r, entries)].frame && r.lastRemote <= entries[NewestUsed(r, entries)].frame <= r.currentFrame
      ensures FindFrame(entries, r.lastRemote + 1) + (entries[NewestUsed(r, entries)].frame - r.lastRemote) <= |entries|
    {
    }

    method FillRow(entries: seq<FrameInput>, newest: FrameInput, p: nat) returns (mispredicted: bool)
      requires Valid() && 0 <= currentFrame < GAME_FRAMES && p < 2
      requires Readable(View(), entries) && HasNews(View(), entries)
      requires newest == entries[NewestUsed(View(), entries)]
      modifies inputs[p]
      ensures Valid() && View() == old(View()).(table := old(View()).table[p := FilledRow(old(View()), old(inputs[p][..]), entries)])
      ensures lastRemoteInputFrame == -1 || mispredicted <==> MustRollback(old(View()), entries, p)
    {
      hide FilledRow, MustRollback, Missing, FindFrame, NewestUsed;
      ghost var r := View();
      NewestFits(r, entries);
      mispredicted := StoreMissing(inputs[p], entries, FindFrame(entries, lastRemoteInputFrame + 1),
        lastRemoteInputFrame, newest.frame, lastInputs[p]);
      HoldNewest(inputs[p], newest, currentFrame);
      StoredIsFilled(r, r.table[p], inputs[p][..], entries);
      ComparedIsMustRollback(r, entries, mispredicted, p);
      assert Rows() == r.table[p := inputs[p][..]];
    }

    method SetOtherPlayerInput(entries: seq<FrameInput>, p: nat)
      requires Valid() && 0 <= currentFrame < GAME_FRAMES && p < 2
      requires Readable(View(), entries)
      modifies this, current, lastInputs, inputs[p]
      ensures Valid() && View() == Receive(sim, old(View()), entries, p)
    {
      hide Resimulated, FilledRow, MustRollback, FindFrame, Missing;
      var newest := entries[|entries| - 1];
      if newest.frame - lastRemoteInputFrame < 1 {
        return;
      }
      if newest.frame > currentFrame {
        newest := entries[FindFrame(entries, currentFrame)];
      }
      var mispredicted := FillRow(entries, newest, p);
      if lastRemoteInputFrame == -1 || mispredicted {
        DoRollback();
      }
      lastInputs[p] := newest.input;
      lastRemoteInputFrame := newest.frame;
      assert lastInputs[..] == old(lastInputs[..])[p := newest.input];
    }

    method ConfirmFrame() returns (checksum: int)
      requires Valid() && frameToConfirm < GAME_FRAMES
      modifies this, confirmed
      ensures Valid() && View() == Confirm(sim, old(View()))
      ensures checksum == ConfirmChecksum(sim, old(View()))
    {
      confirmed.PlayFrame(inputs[0][frameToConfirm], inputs[1][frameToConfirm]);
      checksum := sim.checksum(confirmed.state);
      confirmedFrame := confirmedFrame + 1;
      frameToConfirm := frameToConfirm + 1;
    }
  }
}
