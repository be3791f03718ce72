/** One peer's message handling and fixed step (common/src/application.cpp), updated in place. */
module ApplicationObject {
  import opened Inputs
  import opened Simulation
  import opened RollbackSpec
  import opened PeerSpec
  import opened RollbackObject

  /** `packetQueue` is filled by the network; `sent` is what went out, in order; `errors` counts the
      "Not same checksum" reports. The resend window is `inputs_` and `frames_` together. The game that
      is shown is the very object the rollback re-simulates. */
  class Application<S> {
    const sim: Sim<S>
    const game: Game<S>
    const rollback: Rollback<S>
    var window: seq<FrameInput>
    var packetQueue: seq<Packet>
    var sent: seq<Packet>
    var errors: nat
    var ended: bool

    /** Everything the methods may write. */
    ghost function Repr(): set<object>
      reads this, rollback
    {
      {this, rollback, game, rollback.confirmed, rollback.lastInputs}
      + if |rollback.inputs| == 2 then {rollback.inputs[0], rollback.inputs[1]} else {}
    }

    ghost predicate Valid()
      reads Repr(), rollback, rollback.current, rollback.confirmed, rollback.lastInputs, rollback.inputs
    {
      rollback.Valid() && rollback.current == game && rollback.sim == sim
    }

    ghost function View(): Peer<S>
      reads Repr(), rollback, rollback.current, rollback.confirmed, rollback.lastInputs, rollback.inputs
    {
      Peer(rollback.View(), window, packetQueue, sent, errors, ended, PastCurrent)
    }

    constructor (sim: Sim<S>, playerNbr: int)
      requires playerNbr == 0 || playerNbr == 1
      ensures Valid() && this.sim == sim && View() == FreshPeer(sim, playerNbr, PastCurrent)
    {
      this.sim := sim;
      var g := new Game(sim, playerNbr);
      game := g;
      rollback := new Rollback(sim, g);
      window, packetQueue, sent, errors, ended := [], [], [], 0, false;
    }

    method SendFrameConfirmation(entries: seq<FrameInput>)
      requires Valid() && WellFormed(View()) && entries != []
      requires !SendConfirmations(sim, View(), entries).Fault?
      modifies this`sent, rollback, rollback.confirmed
      ensures Valid() && SendConfirmations(sim, old(View()), entries) == Continue(View())
    {
      hide Confirm, ConfirmChecksum, FindFrame;
      var it := FindFrame(entries, rollback.frameToConfirm);
      var end := |entries|;
      if entries[|entries| - 1].frame > rollback.currentFrame {
        end := FindFrame(entries, rollback.currentFrame);
      }
      while it != end
        invariant Valid() && WellFormed(View())
        invariant ConfirmLoop(sim, View(), entries, it, end) == SendConfirmations(sim, old(View()), entries)
        decreases |entries| - it
      {
        if entries[it].frame > rollback.currentFrame {
          break;
        }
        ConfirmAndSend();
        it := it + 1;
      }
    }

    method ConfirmAndSend()
      requires Valid() && rollback.frameToConfirm < GAME_FRAMES
      modifies this`sent, rollback, rollback.confirmed
      ensures Valid() && rollback.currentFrame == old(rollback.currentFrame)
      ensures View() == old(View()).(
                rb := Confirm(sim, old(View()).rb),
                sent := old(sent) + [Confirmation(ConfirmChecksum(sim, old(View()).rb), old(window))])
    {
      var checksum := rollback.ConfirmFrame();
      sent := sent + [Confirmation(checksum, window)];
    }

    method ReceiveInput(entries: seq<FrameInput>) returns (stale: bool)
      requires Valid() && WellFormed(View())
      requires !HandleInput(sim, View(), entries).Fault?
      modifies this`sent, rollback, game, rollback.confirmed, rollback.lastInputs, rollback.inputs[0], rollback.inputs[1]
      ensures Valid() && HandleInput(sim, old(View()), entries) == if stale then Stop(View()) else Continue(View())
    {
      stale := entries[|entries| - 1].frame < rollback.lastRemoteInputFrame;
      if !stale {
        rollback.SetOtherPlayerInput(entries, if game.playerNbr == 0 then 1 else 0);
        if game.playerNbr == 0 {
          SendFrameConfirmation(entries);
        }
      }
    }

    method ReceiveConfirmation(checksum: int, entries: seq<FrameInput>) returns (different: bool)
      requires Valid() && WellFormed(View()) && game.playerNbr != 0
      requires !HandleConfirmation(sim, View(), checksum, entries).Fault?
      modifies this`sent, this`window, this`errors
      modifies rollback, game, rollback.confirmed, rollback.lastInputs, rollback.inputs[0], rollback.inputs[1]
      ensures Valid()
      ensures HandleConfirmation(sim, old(View()), checksum, entries) == if different then Stop(View()) else Continue(View())
    {
      hide Receive, Confirm, ConfirmChecksum, Readable;
      if rollback.lastRemoteInputFrame < entries[|entries| - 1].frame {
        rollback.SetOtherPlayerInput(entries, if game.playerNbr == 0 then 1 else 0);
      }
      var own := rollback.ConfirmFrame();
      different := own != checksum;
      if different {
        errors := errors + 1;
      } else {
        sent := sent + [Acknowledgement];
        window := window[1..];
      }
    }

    method HandlePacket()
      requires Valid() && WellFormed(View())
      requires !HandleAll(sim, View()).Fault?
      modifies Repr()
      ensures Valid() && HandleAll(sim, old(View())) == Stop(View())
    {
      hide HandleInput, HandleConfirmation;
      while packetQueue != []
        invariant Valid() && WellFormed(View())
        invariant HandleAll(sim, View()) == HandleAll(sim, old(View()))
        decreases |packetQueue|
      {
        var packet := packetQueue[0];
        if packet.InputPacket? {
          var stale := ReceiveInput(packet.entries);
          if stale {
            return;
          }
        } else if game.playerNbr == 0 {
          window := window[1..];
        } else {
          var different := ReceiveConfirmation(packet.checksum, packet.entries);
          if different {
            return;
          }
        }
        packetQueue := packetQueue[1..];
      }
    }

    /** The rest of a turn, after the packets: record and send the local input, play the frame. */
    method PlayLocalInput(actualInput: Input)
      requires Valid() && WellFormed(View())
      modifies Repr()
      ensures Valid() && View() == PlayFrame(sim, old(View()), actualInput)
    {
      hide Play;
      var frameInput := FrameInput(actualInput, rollback.currentFrame);
      rollback.SetPlayerInput(frameInput, game.playerNbr);
      window := window + [frameInput];
      sent := sent + [InputPacket(window)];
      game.PlayFrame(rollback.lastInputs[0], rollback.lastInputs[1]);
    }

    /** One turn of the fixed-step loop, with the keys that are down. */
    method Update(actualInput: Input)
      requires Valid() && rollback.currentFrame < GAME_FRAMES
      requires !FixedStep(sim, View(), actualInput).Fault?
      modifies Repr()
      ensures Valid() && FixedStep(sim, old(View()), actualInput) == Continue(View())
    {
      hide HandleAll, PlayFrame;
      ghost var next := Advanced(View());
      rollback.IncreaseCurrentFrame();
      assert View() == next;
      if rollback.currentFrame >= GAME_FRAMES {
        ended := true;
        return;
      }
      HandlePacket();
      PlayLocalInput(actualInput);
    }
  }
}
