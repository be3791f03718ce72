/** Inputs, frames and the deterministic simulation that both peers replay. */
module Inputs {

  // A set of pressed keys, one bit each (common/include/Input.h).
  type Input = bv8

  const NO_INPUT: Input := 0
  const JUMP: Input := 1
  const LEFT: Input := 2
  const RIGHT: Input := 4
  const KICK: Input := 8

  // Frames of one match; every per-frame table has this many slots.
  const GAME_FRAMES := 5400

  datatype FrameInput = FrameInput(input: Input, frame: int)

  /** `std::find_if` for a frame number: the first entry of that frame, or the end position. */
  function FindFrame(entries: seq<FrameInput>, frame: int): (i: nat)
    ensures i <= |entries|
    ensures i < |entries| ==> entries[i].frame == frame
    ensures forall k :: 0 <= k < i ==> entries[k].frame != frame
  {
    if entries == [] then 0
    else if entries[0].frame == frame then 0
    else
      var rest := FindFrame(entries[1..], frame);
      assert forall k :: 1 <= k < rest + 1 ==> entries[k] == entries[1..][k - 1];
      rest + 1
  }

  /** The resend window: the recorded inputs of frames first, ..., end - 1, each with its number. */
  function Window(recorded: seq<Input>, first: nat, end: nat): (w: seq<FrameInput>)
    requires first <= end <= |recorded|
  {
    seq(end - first, i requires 0 <= i < end - first => FrameInput(recorded[first + i], first + i))
  }

  lemma FindInWindow(recorded: seq<Input>, first: nat, end: nat, frame: int)
    requires first <= end <= |recorded|
    ensures FindFrame(Window(recorded, first, end), frame)
         == if first <= frame < end then frame - first else end - first
  {
    var w := Window(recorded, first, end);
    var i := FindFrame(w, frame);
    if first <= frame < end {
      assert w[frame - first].frame == frame;
    }
    assert i < |w| ==> w[i].frame == first + i;
  }
}

module Simulation {
  import opened Inputs

  /** The game as the rollback code uses it. `update(nbr, s, own, other)` is one fixed update of a
      game whose player number is `nbr`, its two inputs being the own and the other player's. */
  datatype Sim<!S> = Sim(start: S, update: (int, S, Input, Input) -> S, checksum: S -> int)

  /** Both peers compute the same next state, each calling its own player "own". */
  ghost predicate Symmetric<S(!new)>(sim: Sim<S>) {
    forall s: S, blue: Input, red: Input :: sim.update(0, s, blue, red) == sim.update(1, s, red, blue)
  }

  /** One frame with the blue player's (0) and the red player's (1) input, run by peer `me`. */
  function Play<S>(sim: Sim<S>, me: int, s: S, blue: Input, red: Input): S {
    if me == 0 then sim.update(me, s, blue, red) else sim.update(me, s, red, blue)
  }

  /** The frames first, ..., end - 1 of the two input rows, played in order. */
  function Replay<S>(sim: Sim<S>, me: int, s: S, blue: seq<Input>, red: seq<Input>, first: int, end: int): S
    requires 0 <= first && end <= |blue| && end <= |red|
    decreases end - first
  {
    if end <= first then s
    else Play(sim, me, Replay(sim, me, s, blue, red, first, end - 1), blue[end - 1], red[end - 1])
  }

  /** The reference: what a game that knew all inputs would be after `n` frames. */
  function Truth<S>(sim: Sim<S>, blue: seq<Input>, red: seq<Input>, n: nat): S
    requires n <= |blue| && n <= |red|
  {
    Replay(sim, 0, sim.start, blue, red, 0, n)
  }

  lemma {:induction false} ReplaySplit<S>(sim: Sim<S>, me: int, s: S, blue: seq<Input>, red: seq<Input>,
                                          first: int, mid: int, end: int)
    requires 0 <= first <= mid <= end <= |blue| && end <= |red|
    ensures Replay(sim, me, Replay(sim, me, s, blue, red, first, mid), blue, red, mid, end)
         == Replay(sim, me, s, blue, red, first, end)
    decreases end - mid
  {
    if mid == end {
      assert Replay(sim, me, Replay(sim, me, s, blue, red, first, mid), blue, red, end, end)
          == Replay(sim, me, s, blue, red, first, mid);
    } else {
      ReplaySplit(sim, me, s, blue, red, first, mid, end - 1);
    }
  }

  /** Replays depend only on the inputs of the frames they play. */
  lemma {:induction false} ReplayCongruent<S>(sim: Sim<S>, me: int, s: S, first: int, end: int,
                                              blue: seq<Input>, red: seq<Input>,
                                              blue': seq<Input>, red': seq<Input>)
    requires 0 <= first && end <= |blue| && end <= |red| && end <= |blue'| && end <= |red'|
    requires forall k :: first <= k < end ==> blue[k] == blue'[k] && red[k] == red'[k]
    ensures Replay(sim, me, s, blue, red, first, end) == Replay(sim, me, s, blue', red', first, end)
    decreases end - first
  {
    if first < end {
      ReplayCongruent(sim, me, s, first, end - 1, blue, red, blue', red');
    }
  }

  /** A symmetric simulation replays to the same state on either peer. */
  lemma {:induction false} ReplayOnEitherPeer<S(!new)>(sim: Sim<S>, me: int, s: S,
                                                       blue: seq<Input>, red: seq<Input>, first: int, end: int)
    requires Symmetric(sim) && (me == 0 || me == 1)
    requires 0 <= first && end <= |blue| && end <= |red|
    ensures Replay(sim, me, s, blue, red, first, end) == Replay(sim, 0, s, blue, red, first, end)
    decreases end - first
  {
    if first < end {
      ReplayOnEitherPeer(sim, me, s, blue, red, first, end - 1);
    }
  }
}
