# Verification of Head Shot's netcode, physics and queues

Head Shot is a two-player football game over the network. Both peers run the same deterministic game,
show a speculative version of it that predicts the other player's inputs, and confirm frames whose inputs
are known on both sides. This project models that netcode, the game and physics step it replays, the two
queues that come with the Tracy profiler, and the pool allocator of the engine, in Dafny 4.11, and proves
what they are meant to guarantee. `dafny verify dfyconfig.toml` checks everything.

## What is modelled

**The netcode.** `Simulation.dfy` has inputs, resend windows and an abstract simulation (`Sim`), with
`Truth`, the reference: the state of one game that is given all inputs. `RollbackState.dfy` and
`PeerState.dfy` specify the rollback object and one peer's packet handling on values;
`Rollback.dfy` and `Application.dfy` are the classes with their tables, loops and fields, each method proved to
compute exactly the specified step. `Session.dfy` puts two peers on a network: input packets may be lost,
duplicated, delayed and reordered; confirmations and acknowledgements arrive once and in order. Reading past
the end of a container is the state `Crashed`, so "never crashes" is part of every theorem.
`MasterSteps.dfy`, `ClientSteps.dfy` and `Agreement.dfy` hold the inductive invariant over both peers and the channels, and the
main results: the confirmed games of the two peers are the true game, the checksum comparison never fails,
the shown game is always the full replay over the predicted inputs although most replays are skipped, and
the resend windows are contiguous and reach back far enough. These are safety results; `Progress.dfy` says what really
happens: an account that goes through the packets waiting for a peer tells exactly how far a fixed step brings that peer,
what it sends and what stays in its queue. `Lockstep.dfy` uses it for a run in which nothing is lost: such a run is
on time and confirms every frame on both sides, for all inputs and up to the end of a match.

**The frame that is confirmed too early.** `SendFrameConfirmation` stops only at frames *past* the current one
(common/src/application.cpp:262), and packets are handled before the local input of the current frame is
recorded (lines 46 and 65). The model keeps the code as it is. A fresh packet that ends exactly at the master's
current frame makes it confirm that frame with an empty local input. The main results are therefore about
runs in which no packet that the master really handles does so (`PlayedOnTime`), and the exact boundary is
proved: handling one packet confirms recorded frames only if and only if it does not end at the current frame
(`EarlyConfirmation.dfy`), and agreement, whatever the local input will be, fails exactly if the packet ends at the
current frame and some input matters there. `OnTimeExactly.dfy` lifts this to the whole queue, to a fixed step
and to runs. In Head Shot an input always matters, so the schedules on which the peers agree whatever the players
press are exactly those on time (`HeadShot.HeadShotAgreesExactlyOnTime`). What an early confirmation does to the
client is proved too, for every such confirmation and in a concrete run of five actions that crashes for all
inputs. The guard is a parameter of a peer: `StrictGuard.dfy` proves that with the stricter guard, which stops at
the current frame already, everything holds in every run, whatever the schedule.

**The game.** `Bodies.dfy`, `Geometry.dfy`, `GameState.dfy` specify one fixed update as a function: body update,
quadtree, traversal of its leaves, triggers, contacts, players' inputs. `GameLaws.dfy` proves that both
peers compute the same game (so the abstract simulation may be instantiated with it, `HeadShot.dfy`), that
copying a game is enough to replay it although the copied tree is stale, and that the broad phase finds exactly the
overlapping pairs. `Triggers.dfy` follows the trigger bookkeeping over whole matches with rollbacks. `MatchStart.dfy` has
the bodies and colliders that `Setup` creates, and shows that they meet what these results ask for, so that they
hold in every match. `Traversal.dfy` describes the loops over the leaves by the list of the pairs they visit, each pair of
a leaf once, and what a visit does: a trigger pair is open afterwards if and only if it overlaps. `MatchFrames.dfy` applies it
to every frame of a match, where all colliders share one leaf, and says exactly when goals are scored, where a goal puts
everyone, and when a player comes to stand on the ground. `MatchInputs.dfy` has the forces at the end of a frame, the kick
timers over whole runs, and what references and checksum stand for.
`ContactSpec.dfy` has the contact solver over the reals; its laws are in `ContactLaws.dfy` (velocities),
`ContactConservation.dfy` (momentum, energy), `ContactPenetration.dfy` (normal, penetration, positions of dynamic bodies)
and `ContactMoves.dfy` (any mix of dynamic and static bodies, what is left of the penetration, the whole of `Resolve`);
`GameContacts.dfy` states them for two colliders in the world, measured before and after. `QuadTreeSpec.dfy` and `QuadTree.dfy` relate a tree of
values to the pool of nodes that the code links in place; `ContactObject.dfy` and `GameObject.dfy` have the classes of the
contact and of the game with its world, proved against the specification.

**The queues.** `Claims.dfy` is the claim protocol of `dequeue_bulk` for any number of consumers: safety, what each consumer
is granted, and that no consumer waits for another and nothing published is ever out of reach; `BlockIndex.dfy` and `BlockQueue.dfy` the
block-based queue with its circular list, block reuse and doubling index, in which the elements of claimed ranges
may be read in any order, `SpscRing.dfy` the
single-producer single-consumer ring with its stale copies of the indices; the first and the last are state machines
over every interleaving of atomic steps. `PoolSpec.dfy` and
`PoolAllocator.dfy` are the intrusive free list.

Conventions: `float` is `real`; the vector length is a parameter that is only known to square to the squared
length; reading a float's bits is an unknown function; player 0 is blue and the master. Log fields (`events`,
`History`, `enqueued`, `claims`, `sent`) exist in the model only.

## Model

| member | source | states |
|---|---|---|
| Inputs.FindInWindow | common/src/rollback.cpp:33-46 | searching a resend window for a frame finds its position exactly when the window covers the frame, else the end |
| Simulation.ReplaySplit | common/src/rollback.cpp:94-110 | replaying in two stretches is replaying at once |
| Simulation.ReplayOnEitherPeer | common/src/rollback.cpp:97-109 | a symmetric simulation replays to the same state whichever player is "own" |
| RollbackSpec.StoredIsFilled | common/src/rollback.cpp:52-74 | a row after the two storing loops is the specified row |
| RollbackSpec.ComparedIsMustRollback | common/src/rollback.cpp:49-60 | the comparisons made while storing decide exactly the specified need to re-simulate |
| RollbackLaws.DeliverableIsReadable | common/src/rollback.cpp:32-55 | no look-up passes the end of a resend window that reaches back far enough, and finds the input of the frame it looks for |
| RollbackLaws.InputTable | common/src/rollback.cpp:52-82 | older frames untouched, received inputs stored up to the new last remote frame max(old, min(packet end, current)), the last one held up to the current frame, nothing else changed |
| RollbackLaws.NoMismatch | common/src/rollback.cpp:57-60 | without a mismatch the predicted row has not changed |
| RollbackLaws.ResimulatedIsSpeculation | common/src/rollback.cpp:85-111 | copying the confirmed game and replaying gives the full replay from the start over the predicted inputs |
| RollbackLaws.ElisionSound | common/src/rollback.cpp:48-82 | taking a packet gives the same state as always re-simulating, whether or not a rollback was done |
| RollbackLaws.ReceiveFaithful | common/src/rollback.cpp:15-83 | a packet of either kind leaves the confirmed game true and the shown game the full replay |
| RollbackLaws.ConfirmFaithful | common/src/rollback.cpp:113-142 | confirming a frame with both inputs known gives the true next state and its checksum |
| RollbackLaws.PlayFaithful | common/src/application.cpp:63-87 | recording the local input and stepping extends the full replay by one frame |
| RollbackObject.Game.PlayFrame | common/src/rollback.cpp:97-109 | the loop over the two players and the update play one frame |
| RollbackObject.StoreMissing | common/src/rollback.cpp:52-67 | the loop stores the missing inputs and reports whether one was not the predicted one |
| RollbackObject.HoldNewest | common/src/rollback.cpp:71-74 | the loop holds the newest input up to the current frame |
| RollbackObject.Rollback.constructor | common/include/rollback.h:54-65 | a registered game starts as the fresh state |
| RollbackObject.Rollback.IncreaseCurrentFrame | common/include/rollback.h:40 | only the current frame is counted up |
| RollbackObject.Rollback.SetPlayerInput | common/src/rollback.cpp:9-13 | one slot and the last input of the player are set |
| RollbackObject.Rollback.DoRollback | common/src/rollback.cpp:85-111 | the shown game is the confirmed one replayed from the tables |
| RollbackObject.Rollback.SetOtherPlayerInput | common/src/rollback.cpp:15-83 | the loops over the tables compute exactly the specified step |
| RollbackObject.Rollback.ConfirmFrame | common/src/rollback.cpp:113-142 | the confirmed game, the counters and the checksum are the specified ones |
| ApplicationObject.Application.SendFrameConfirmation | common/src/application.cpp:235-280 | the confirmation loop refines the specified one, with the non-strict guard |
| ApplicationObject.Application.ReceiveInput | common/src/application.cpp:149-161 | stale packets stop the handling, others are taken and, on the master, confirmed; what taking one means for either peer is `Progress.StepsByAccount` |
| ApplicationObject.Application.ReceiveConfirmation | common/src/application.cpp:203-226 | inputs taken first if new, frame confirmed, checksums compared, acknowledgement sent, window trimmed |
| ApplicationObject.Application.HandlePacket | common/src/application.cpp:120-233 | the queue is handled as specified, a stale or differing packet staying at its head |
| ApplicationObject.Application.PlayLocalInput | common/src/application.cpp:63-87 | the local input is recorded, sent with the window, and the frame is played |
| ApplicationObject.Application.Update | common/src/application.cpp:38-90 | one turn of the fixed-step loop is the specified step |
| SessionInvariant.PeerReceives | common/src/application.cpp:149-156 | a fresh window that reaches back far enough can be taken and leaves the peer in order |
| MasterSteps.HandleInputIs | common/src/application.cpp:149-161 | a fresh packet makes the master confirm exactly the frames from its next one to the earlier of packet end and current frame, as the guard has it |
| MasterSteps.ConfirmedUpToOk | common/src/application.cpp:259-279 | confirming frames whose inputs are known keeps every sent confirmation true and in order |
| MasterSteps.MasterTakesInput | common/src/application.cpp:149-161 | a packet at the head that is on time, stale or not, keeps the two-peer invariant |
| MasterSteps.MasterTakesAcknowledgement | common/src/application.cpp:166-171 | an acknowledgement always finds an input to erase |
| MasterSteps.MasterHandlesAll | common/src/application.cpp:120-233 | handling the whole queue on the master, on time, keeps the invariant and reads nothing past an end |
| ClientSteps.ClientTakesConfirmation | common/src/application.cpp:173-228 | a confirmation on the client passes the checksum comparison and keeps the invariant |
| ClientSteps.ClientHandlesAll | common/src/application.cpp:120-233 | handling the whole queue on the client keeps the invariant and reads nothing past an end |
| Agreement.MasterStepOk | common/src/application.cpp:38-90 | a fixed step of the master that handles its packets on time keeps the invariant |
| Agreement.ClientStepOk | common/src/application.cpp:38-90 | a fixed step of the client keeps the invariant |
| Agreement.RunSafe | common/src/application.cpp:38-280 | the invariant holds in every state of every run in which the master handles its packets on time |
| Agreement.TwoPeersAgree | common/src/application.cpp:120-280 | in every such run: no crash, no checksum report, and both confirmed games are the true game over the inputs really given |
| Agreement.SpeculationIsExact | common/src/rollback.cpp:48-111 | each shown game is the full replay over own inputs and the remote ones known, the last one held |
| Agreement.ResendWindows | common/src/application.cpp:67-76 | each resend window is the contiguous tail of the own inputs, trimmed by confirmed frames, and reaches back to what the other side misses |
| Progress.ClientTakesExactly | common/src/application.cpp:120-233 | one packet on the client: the inputs in a fresh packet are known up to the current frame, a confirmation also confirms one frame, acknowledges it and drops one input; a stale packet stays |
| Progress.MasterTakesExactly | common/src/application.cpp:120-280 | one packet on the master, on time: the inputs in it are known, every frame known on both sides but the current one is confirmed and one confirmation sent for each; an acknowledgement drops one input |
| Progress.ReadCovers | common/src/application.cpp:120-233 | every packet that has been handled is known, up to the frame it was handled in |
| Progress.StepsByAccount | common/src/application.cpp:38-90 | after any run on time, a fixed step of either peer ends with exactly the known inputs, confirmed frames, queue, window and sent packets of the account, the window with the new input sent last |
| Lockstep.LockstepConfirms | common/src/application.cpp:38-280 | in lockstep with nothing lost the master is on time, and after n rounds it has confirmed all frames but the last and the client all but the last two, for all inputs |
| EarlyConfirmation.HeadIsFacing | common/src/application.cpp:125-153 | while the two-peer invariant holds, every input packet the master meets is stale or a fresh window |
| EarlyConfirmation.ConfirmedEarly | common/src/application.cpp:259-267 | a packet that ends at the current frame makes the master confirm it with the empty local input, and send its checksum with the window as it is |
| EarlyConfirmation.ConfirmsRecordedFramesOnly | common/src/application.cpp:259-267 | only frames with recorded local input are confirmed, if and only if the packet does not end at the current frame |
| EarlyConfirmation.AgreementExactlyOnTime | common/src/application.cpp:259-267 | handling one packet, the confirmed game is the true one whatever the local input will be, unless, and only unless, the packet ends at the current frame and some input matters there |
| EarlyConfirmation.ClientMeetsEarly | common/src/application.cpp:173-226 | an early confirmation of its next frame makes the client read past the end if and only if the window in it is empty, and report a checksum if and only if the checksums with its own and with the empty blue input differ |
| OnTimeExactly.HandleAllExactly | common/src/application.cpp:120-233 | handling the whole queue confirms the true game if it is done on time, and otherwise the current frame with the empty local input, whatever follows in the queue |
| OnTimeExactly.QueueExactlyOnTime | common/src/application.cpp:120-280 | after the whole queue the confirmed game is the true one for every local input if and only if it was handled on time or no input matters |
| OnTimeExactly.RunExactlyOnTime | common/src/application.cpp:38-280 | after any run on time, the master's next fixed step agrees for every local input if and only if it handles its packets on time or no input matters in that frame |
| StrictGuard.AlwaysPlayedOnTime | common/src/application.cpp:259-267 | with a guard that stops at the current frame every run is on time |
| StrictGuard.StrictGuardIsSafe | common/src/application.cpp:259-267 | with that guard agreement, exact speculation and the resend windows hold in every run |
| EarlyConfirmation.EarlyRunCrashes | common/src/application.cpp:166-226 | a run of five actions sends a confirmation without inputs, and the client reads past its end |
| HeadShot.HeadShotSymmetric | common/src/Game.cpp:97-179 | the real fixed update is symmetric in the peers |
| HeadShot.TruthIsOneGame | common/src/Game.cpp:97-179 | the reference of the netcode is one real game that is given all inputs |
| HeadShot.HeadShotPeersAgree | common/src/application.cpp:120-280 | two peers playing the real game on time agree with that one game, never report a checksum, show the game over own and predicted inputs, and keep their windows |
| HeadShot.HeadShotWithStrictGuard | common/src/application.cpp:259-267 | with the stricter guard so in every run |
| HeadShot.HeadShotExactlyOnTime | common/src/application.cpp:259-267 | in the real game, after any run on time, the master's next step agrees for every local input if and only if it handles its packets on time |
| HeadShot.HeadShotAgreesExactlyOnTime | common/src/application.cpp:38-280 | a schedule is on time if and only if every step of the master in it agrees for every input |
| GameSpec.PairIsSymmetric | engine/src/Collider.cpp:38-42 | pairs are equal exactly when they have the same two colliders, in either order |
| GameSpec.BuiltHolds | engine/src/World.cpp:164-173 | after all insertions the tree holds exactly the entries |
| GameSpec.EntriesAre | engine/src/World.cpp:149-173 | the entries are the attached colliders with their bounds, each once |
| GameSpec.RootMeetsAll | engine/src/World.cpp:144-164 | the root's bounds, started from the extreme floats, meet every entry |
| GameSpec.RootIsLeast | engine/src/World.cpp:144-164 | and reach no farther than needed for the entries and the extreme floats |
| GameLaws.RootSplitExactly | engine/src/QuadTree.cpp:48-80 | the root is split if and only if there are more colliders than fit into a leaf and the depth limit allows it |
| GameLaws.InputsCommute | common/src/Game.cpp:13-79 | the two players' inputs may be processed in either order |
| GameLaws.PeerSymmetry | common/src/Game.cpp:97-179 | player number 0 with inputs (a, b) and player number 1 with (b, a) lead to the same world, flags, timers and scores |
| GameLaws.CopySufficient | common/src/Game.cpp:195-213 | after a copy every further sequence of inputs gives equal games |
| GameLaws.CopyIsTheOther | common/src/Game.cpp:195-213 | after a copy the games differ in player number and running state only |
| GameLaws.BodiesIntegrated | engine/src/World.cpp:121-138 | momentum changes by force times time, position by the new velocity times time, forces are cleared, static and disabled bodies stay |
| GameLaws.PlayersSlowDown | common/src/Game.cpp:121-145 | one collider's turn: the sideways speed is cut off at its limit, and without walking on the ground a tenth of the velocity is lost; nothing else but gravity is added |
| GameLaws.FrameTurns | common/src/Game.cpp:112-172 | in a frame each player's body takes a turn, and the ball falls, once for each of its colliders; everything else stays |
| GameLaws.TwoTurns | common/src/Game.cpp:117-171 | with two colliders gravity counts twice, and on the ground, when not walking, 0.81 of the limited velocity is left |
| GameLaws.LeavesNotOverfull | engine/src/QuadTree.cpp:60-79 | a leaf holds more than the capacity only at the depth limit |
| GameLaws.BoxesShareLeaf | engine/src/World.cpp:140-174 | for any capacity and depth limit, attached colliders whose boxes meet are compared in some leaf |
| GameLaws.BroadPhaseIsExact | engine/src/World.cpp:140-191 | for any capacity and depth limit, the overlapping pairs compared by the traversal are exactly all overlapping attached pairs |
| GameLaws.LeavesSound | engine/src/QuadTree.cpp:48-80 | for any capacity and depth limit, a leaf holds exactly the attached colliders whose boxes meet its bounds, each once |
| Traversal.PositionsAreAll | engine/src/World.cpp:181-191 | each pair of positions of a leaf is visited exactly once |
| Traversal.VisitLeavesIs | engine/src/World.cpp:176-241 | the traversal of the leaves visits exactly the pairs of their entries, one after the other |
| Traversal.ComparedIsVisited | engine/src/World.cpp:176-191 | a pair shares a leaf if and only if the traversal visits it |
| Traversal.VisitOpensByOverlap | engine/src/World.cpp:215-233 | visiting a trigger pair opens it if it overlaps and closes it if not; only a change is logged, by an enter or an exit, and no other pair is touched |
| Traversal.LastVisitDecides | engine/src/World.cpp:176-241 | after the traversal a trigger pair is open if and only if it overlapped when it was visited last |
| Traversal.NotVisitedStays | engine/src/World.cpp:176-241 | a pair that is not visited stays open or closed |
| Traversal.OneGoalAtMost | common/src/Game.cpp:253-272 | a pair of goal and ball visited once scores if and only if it overlaps then and was not open |
| Traversal.VisitTriggerMoves | common/src/Game.cpp:253-283 | a trigger moves no body, unless it scores: then ball and players are put back |
| Traversal.GroundedByTouch | common/src/Game.cpp:285-296 | after the traversal a player is on the ground if and only if it was before or touched the ground when that pair was visited |
| Triggers.EnterKeeps | common/src/Game.cpp:253-272 | an enter keeps flags, scores and open pairs in step |
| Triggers.ExitKeeps | common/src/Game.cpp:274-283 | an exit keeps flags and open pairs in step |
| Triggers.FixedUpdateKeeps | engine/src/World.cpp:215-233 | a fixed update keeps the books, even when a pair shares several leaves |
| Triggers.BookkeepingOverRuns | engine/src/World.cpp:215-233 | over every run with rollbacks the pair set is the set of open pairs, each kick flag its pair's membership, each score the number of goal enters |
| Triggers.EventsAlternate | engine/src/World.cpp:222-233 | each pair is entered first, then exits and enters take turns |
| Triggers.TriggersOverMatch | engine/src/World.cpp:215-233 | both statements for both games of a peer, from the start of a match on |
| MatchStart.StartIsOk | common/src/Game.cpp:318-575 | what `Setup` creates has proper shapes, masses and references, different trigger colliders and three different bodies, and clean books |
| MatchStart.StaysInMatch | common/src/Game.cpp:82-88 | whatever is shown, confirmed and rolled back, masses, kinds and colliders stay as `Setup` left them |
| MatchStart.EveryMatch | engine/src/World.cpp:140-233 | in every match the books of both games are in order, enters and exits alternate, and the next frame's tree misses no overlap |
| MatchStart.FrameInMatch | common/src/Game.cpp:112-172 | in every frame of a match each player takes two turns and the ball falls once |
| MatchStart.MatchAgrees | common/src/application.cpp:38-280 | two peers that start a match play one game of Head Shot if they are on time, and in any case with the stricter guard |
| MatchStart.MatchConfirms | common/src/application.cpp:38-280 | in lockstep two peers confirm a whole match of the real game but its last frames, for all inputs |
| MatchFrames.FrameVisitsAllPairs | engine/src/World.cpp:140-241 | in every frame of a match the world update visits every pair of the thirteen colliders exactly once |
| MatchFrames.FrameTriggers | engine/src/World.cpp:215-233 | after it a trigger pair is open if and only if it overlaps when it is visited |
| MatchFrames.FrameGoals | common/src/Game.cpp:253-272 | in a frame red scores one goal if the ball newly overlaps the left goal, blue at the right one, and none otherwise |
| MatchFrames.GoalPutsBack | common/src/Game.cpp:577-590 | a goal puts ball and players at rest where `Setup` put them and moves nothing else; without a goal the visit moves nothing |
| MatchFrames.FrameGrounds | common/src/Game.cpp:285-296 | in a frame a player comes to stand on the ground if and only if it touches the ground when the pair is visited |
| MatchInputs.FrameIs | common/src/Game.cpp:97-179 | a frame is world, timers, both inputs and the loop over the colliders with each player's own input, whichever player the game calls its own |
| MatchInputs.FrameForces | common/src/Game.cpp:9-172 | at the end of a frame forces and velocities of ball and players are exactly those of each player's own input, of the kicks and of gravity, added to the state after the world update; no other body is touched |
| MatchInputs.KickTimers | common/src/Game.cpp:106-108 | a kick timer starts again with a kick and counts the time otherwise |
| MatchInputs.OneKickASecond | common/src/Game.cpp:9-80 | over every sequence of frames, two kicks of a player are sixty frames apart at least, and after sixty frames the timer allows one |
| MatchInputs.ReferencesMean | common/src/Game.cpp:318-575 | the ball starts between the players, which face each other; the left goal is at the left edge and the right one at the right edge |
| MatchInputs.CheckSumSees | common/src/Game.cpp:298-316 | the checksum changes by exactly what ball and players change, in position and velocity, and sees nothing else |
| Geometry.RectCircleIsClosest | libs/Math/include/Shape.h:209-247 | the rectangle/circle test holds exactly when the circle contains the rectangle's closest point |
| Bodies.OverlapNeedsBounds | engine/src/World.cpp:258-291 | overlapping shapes have intersecting bounds |
| Bodies.BoundsAreTight | engine/src/Collider.cpp:3-36 | the bounding box holds the shape, and the shape reaches all four sides |
| Bodies.OverlapSymmetric | engine/src/World.cpp:258-291 | overlap does not depend on the order |
| ContactLaws.VelocityLaw | engine/src/Contact.cpp:109-150 | a separating velocity s <= 0 becomes -e s, for dynamic and static bodies |
| ContactConservation.MomentumConserved | engine/src/Contact.cpp:130-140 | two dynamic bodies keep their momentum |
| ContactConservation.EnergyLaw | engine/src/Contact.cpp:130-140 | twice their kinetic energy changes by (e^2 - 1) s^2 over the total inverse mass |
| ContactLaws.VelocityPassIdempotent | engine/src/Contact.cpp:109-150 | a second velocity pass changes nothing |
| ContactLaws.SecondFinishKeepsVelocities | engine/src/Contact.cpp:94-101 | neither does the second trip through the end of the swapped resolve |
| ContactPenetration.OrderKeepsVelocities | engine/src/Contact.cpp:60-65 | rectangle/circle and circle/rectangle end with the same velocities |
| ContactPenetration.UnitNormal | engine/src/Contact.cpp:17-51 | the measured normal has length one |
| ContactPenetration.PenetrationIsOverlap | engine/src/Contact.cpp:10-53 | the penetration is not negative exactly for overlapping pairs |
| ContactPenetration.MassCenterKept | engine/src/Contact.cpp:152-174 | pushing apart keeps the centre of mass |
| ContactPenetration.CirclesBecomeTangent | engine/src/Contact.cpp:152-174 | two overlapping dynamic circles with distinct centres become exactly tangent |
| ContactMoves.EachMovesItsPart | engine/src/Contact.cpp:152-174 | for every mix of dynamic and static bodies each dynamic one moves along the normal by the other's part of the mass, in opposite directions, and a static one stays |
| ContactMoves.PenetrationLeft | engine/src/Contact.cpp:152-174 | what is left: nothing for two dynamic bodies, half for a dynamic and a static one of equal mass, all for two static ones |
| ContactMoves.CoincidentPart | engine/src/Contact.cpp:10-53 | two circles with the same centre are parted vertically |
| ContactMoves.RestitutionIsMean | engine/src/Contact.cpp:94-97 | the restitution is the mean of the colliders' weighted by their bodies' masses, in either order |
| ContactMoves.BouncesOff | engine/src/Contact.cpp:130-149 | a dynamic body gets the whole change of velocity from a static one, which keeps its own |
| ContactMoves.ResolveOnce | engine/src/Contact.cpp:3-101 | a whole resolve: parts moved, separating velocity turned by the mean restitution, normal kept, penetration reduced by what was moved |
| ContactMoves.ResolveTwice | engine/src/Contact.cpp:60-101 | a rectangle against a circle moves everything twice and turns the velocities once |
| GameContacts.WrittenBack | engine/src/World.cpp:193-212 | a contact writes its two bodies back where they belong and changes nothing else in the world |
| GameContacts.ContactResolved | engine/src/World.cpp:193-212 | two overlapping colliders measured again after their contact: same normal, separating velocity turned, penetration reduced |
| GameContacts.VisitResolves | engine/src/World.cpp:193-212 | so it is when the traversal visits two solid colliders that overlap |
| GameContacts.VisitIs | engine/src/World.cpp:193-212 | and two solid colliders that do not overlap are left as they are |
| ContactObject.Contact.Resolve | engine/src/Contact.cpp:3-101 | the contact updated in place is the specified one, the swapped case resolving twice |
| ContactObject.Contact.ResolveVelocityAndInterpenetration | engine/src/Contact.cpp:109-150 | the velocity pass in place, for positive and negative masses with the two guards |
| ContactObject.Contact.ResolveInterpenetration | engine/src/Contact.cpp:152-174 | the position pass in place, for positive and negative masses with the two guards |
| QuadTreeSpec.InsertHolds | engine/src/QuadTree.cpp:48-80 | insertion adds the entry to what the tree holds, through any subdivision |
| QuadTreeSpec.InsertKeepsBounded | engine/src/QuadTree.cpp:60-79 | insertion splits full leaves above the depth limit |
| QuadTreeSpec.MoreNeeded | engine/src/QuadTree.cpp:48-80 | insertion splits no node that holds no more than fits into a leaf |
| QuadTreeSpec.SplitExactly | engine/src/QuadTree.cpp:60-79 | a node is split if and only if more entries meet it than fit and it lies above the depth limit |
| QuadTreeSpec.LeafSound | engine/src/QuadTree.cpp:48-80 | a leaf holds exactly the entries that meet its bounds, each once |
| QuadTreeSpec.ShareLeaf | engine/src/QuadTree.cpp:48-80 | two entries that meet share a leaf |
| QuadTreeSpec.CountFits | engine/src/QuadTree.cpp:13-46 | a tree never has more nodes than a complete one of the depth limit |
| QuadTreeSpec.CompleteIsPowerSum | engine/src/QuadTree.cpp:15-20 | which is the sum 1 + 4 + ... + 4^D that the constructor allocates |
| QuadTreeObject.QuadTree.constructor | engine/src/QuadTree.cpp:13-21 | the pool has that many nodes |
| QuadTreeObject.QuadTree.SubdivideNode | engine/src/QuadTree.cpp:23-46 | four fresh nodes with the quarters of the bounds, one level deeper |
| QuadTreeObject.QuadTree.Insert | engine/src/QuadTree.cpp:48-80 | the linked nodes become the specified tree, using exactly the nodes it needs, and the recursion ends |
| QuadTreeObject.QuadTree.InsertAtRoot | engine/src/QuadTree.cpp:48-80 | inserting at the root never runs out of nodes, whatever is inserted |
| QuadTreeObject.QuadTree.SetUpRoot | engine/src/QuadTree.cpp:82-95 | an empty root whatever the nodes held before |
| GameObject.Game.UpdateBodies | engine/src/World.cpp:121-138 | the loop integrates every enabled, non-static body |
| GameObject.Game.PlaceColliders | engine/src/World.cpp:144-162 | the first loop places the colliders and widens the bounds of the root |
| GameObject.Game.SetUpQuadTree | engine/src/World.cpp:140-174 | the linked tree is the specified tree of the placed colliders |
| GameObject.Game.VisitPair | engine/src/World.cpp:185-233 | one pair of a leaf in place |
| GameObject.Game.UpdateQuadTreeCollisions | engine/src/World.cpp:176-241 | the traversal visits the leaves of the tree in order |
| GameObject.Game.OnTriggerEnter | common/src/Game.cpp:253-272 | flags, scores and positions after an enter |
| GameObject.Game.OnTriggerExit | common/src/Game.cpp:274-283 | flags after an exit |
| GameObject.Game.OnCollisionEnter | common/src/Game.cpp:285-296 | grounded flags after a contact with the ground |
| GameObject.Game.ProcessInput | common/src/Game.cpp:9-80 | own input first, then the other's |
| GameObject.Game.FixedUpdate | common/src/Game.cpp:97-179 | world, timers, inputs and the loop over the colliders are the specified update |
| GameObject.Game.Copy | common/src/Game.cpp:195-213 | everything but player number and running state; the nodes of the tree are the other game's stale ones |
| Claims.RunOk | libs/TracyProfiler/client/tracy_concurrentqueue.h:1080-1139 | the counter invariant holds under every interleaving of one producer and any number of consumers |
| Claims.HeadNeverPassesTail | libs/TracyProfiler/client/tracy_concurrentqueue.h:1100-1102 | the head index never passes the tail index |
| Claims.CountBalance | libs/TracyProfiler/client/tracy_concurrentqueue.h:1080-1139 | in every run, optimistic count minus overcommit is the head plus what the consumers now inside `dequeue_bulk` still stand for |
| Claims.PendingHeldByOne | libs/TracyProfiler/client/tracy_concurrentqueue.h:1089-1134 | in every run, an execution of the optimistic `fetch_add` still stands for something if and only if exactly one consumer inside `dequeue_bulk` holds it |
| Claims.QuietBalance | libs/TracyProfiler/client/tracy_concurrentqueue.h:1080-1139 | whenever no consumer is between its optimistic `fetch_add` and its claim, the two counts give the head |
| Claims.OvercommitBelowCount | libs/TracyProfiler/client/tracy_concurrentqueue.h:1090 | the source's assertion holds |
| Claims.ClaimedExactlyOnce | libs/TracyProfiler/client/tracy_concurrentqueue.h:1102 | every index below the head is in exactly one claimed range, and no other index is |
| Claims.TailCounts | libs/TracyProfiler/client/tracy_concurrentqueue.h:1065-1083 | the tail counts the elements published |
| Claims.GrantIsExact | libs/TracyProfiler/client/tracy_concurrentqueue.h:1092-1099 | in every run the second read of the tail grants all that was asked for, or all that is left up to the tail |
| Claims.AloneClaimsAll | libs/TracyProfiler/client/tracy_concurrentqueue.h:1080-1134 | from every state without an open claim, an idle consumer that goes on alone claims exactly what the queue holds, at most the largest bulk |
| Claims.AloneFindsNone | libs/TracyProfiler/client/tracy_concurrentqueue.h:1080-1086 | and leaves an empty queue as it is |
| Claims.NobodyWaits | libs/TracyProfiler/client/tracy_concurrentqueue.h:1080-1139 | in every run a consumer that goes on alone is through after six accesses at most |
| Claims.NothingIsLost | libs/TracyProfiler/client/tracy_concurrentqueue.h:1080-1139 | from every reachable state, whatever the consumers are doing, everything published can be claimed |
| BlockIndex.LookUp | libs/TracyProfiler/client/tracy_concurrentqueue.h:1104-1111 | although the base distance is divided unsigned, the masked sum is the slot of the block |
| BlockIndex.EntryAdded | libs/TracyProfiler/client/tracy_concurrentqueue.h:1057-1062 | a new entry overwrites none that is still needed |
| BlockIndex.EntriesMoved | libs/TracyProfiler/client/tracy_concurrentqueue.h:1170-1180 | the doubled index serves the same blocks |
| BlockIndex.WrapDiffers | libs/TracyProfiler/client/tracy_concurrentqueue.h:1062 | masked positions are equal exactly a whole round apart |
| BlockIndex.ReadAtClaim | libs/TracyProfiler/client/tracy_concurrentqueue.h:1102 | claiming elements does not change how far any block has been read |
| BlockIndex.ReadStretch | libs/TracyProfiler/client/tracy_concurrentqueue.h:1127 | reading a stretch of one block is counted in that block by its length, and in no other |
| BlockIndex.ReadOut | libs/TracyProfiler/client/tracy_concurrentqueue.h:1020-1034 | a block that counts as empty has no element that is unread or not yet claimed |
| BlockIndex.AllRead | libs/TracyProfiler/client/tracy_concurrentqueue.h:1020-1034 | and the other way round |
| BlockQueueObject.ExplicitProducer.constructor | libs/TracyProfiler/client/tracy_concurrentqueue.h:938-953 | an empty queue with an index of 32 entries, or of twice the pool-based size if that is larger |
| BlockQueueObject.ExplicitProducer.NewBlockIndex | libs/TracyProfiler/client/tracy_concurrentqueue.h:1158-1195 | the copying loop leaves a valid index of twice the size |
| BlockQueueObject.ExplicitProducer.EnqueueBeginAlloc | libs/TracyProfiler/client/tracy_concurrentqueue.h:1020-1063 | the oldest block is reused if and only if everything in it has been read, else a new one is linked in, after doubling the index if and only if it is full; list, index and contents stay valid |
| BlockQueueObject.ExplicitProducer.Enqueue | libs/TracyProfiler/client/tracy_concurrentqueue.h:1065-1077 | the queue has one more element at its end; the blocks change only at a block boundary, and then by that reuse or one new block |
| BlockQueueObject.ExplicitProducer.Claim | libs/TracyProfiler/client/tracy_concurrentqueue.h:1083-1102 | the claim is the next stretch of the queue, at most 8192 elements, disjoint from all unread ones |
| BlockQueueObject.ExplicitProducer.TakeRange | libs/TracyProfiler/client/tracy_concurrentqueue.h:1104-1131 | a claimed range is read from the right blocks, across block boundaries, whatever other ranges are claimed and unread and whatever has been enqueued since |
| BlockQueueObject.ExplicitProducer.DequeueBulk | libs/TracyProfiler/client/tracy_concurrentqueue.h:1080-1131 | the first elements of the queue, at most 8192, in order, with other claimed ranges still unread |
| SpscRing.SlotsDiffer | libs/TracyProfiler/client/tracy_SPSCQueue.h:71-74 | less than a round apart, two values have different slots |
| SpscRing.RunInv | libs/TracyProfiler/client/tracy_SPSCQueue.h:66-104 | the invariant over indices, stale copies and slots holds under every interleaving |
| SpscRing.FirstInFirstOut | libs/TracyProfiler/client/tracy_SPSCQueue.h:66-104 | nothing unread is overwritten, nothing unwritten read, values come out in order, and the capacity is kept |
| SpscRing.RefinesBoundedQueue | libs/TracyProfiler/client/tracy_SPSCQueue.h:66-104 | every step is an append, a removal at the front, or no step of a bounded queue |
| SpscRing.FrontIsOldest | libs/TracyProfiler/client/tracy_SPSCQueue.h:82-91 | a non-null front is the oldest unread value |
| SpscRing.ReloadsAreExact | libs/TracyProfiler/client/tracy_SPSCQueue.h:75-88 | after a reload null means empty and waiting means full, and the other way round |
| SpscRing.CopiesAreConservative | libs/TracyProfiler/client/tracy_SPSCQueue.h:75-88 | what looks free is free and what looks filled holds a value |
| SpscRing.EmplaceAppends | libs/TracyProfiler/client/tracy_SPSCQueue.h:66-80 | in every run with room, the steps of one emplace put the value at the end of the queue, whatever the consumer is doing |
| SpscRing.PopTakesFirst | libs/TracyProfiler/client/tracy_SPSCQueue.h:82-104 | in every run with a value, front and pop take the first one, whatever the producer is doing |
| PoolSpec.DoKeepsPartition | engine/include/Allocators.h:219-243 | free and outstanding blocks partition all blocks |
| PoolSpec.ResetIsNew | engine/include/Allocators.h:244-261 | after a reset the pool is as new |
| PoolSpec.GivingBackExactly | engine/include/Allocators.h:234-242 | giving a block back keeps the partition if and only if it was outstanding |
| PoolSpec.NeverHandedOutTwice | engine/include/Allocators.h:219-232 | in every run no outstanding block is handed out, and a request fails exactly for a wrong size or when all blocks are outstanding |
| PoolSpec.LastInFirstOut | engine/include/Allocators.h:229-242 | the block given back last is handed out next, and the pool is as before |
| PoolObject.PoolAllocator.InitializePoolList | engine/include/Allocators.h:252-261 | the loop links all blocks, the last one first |
| PoolObject.PoolAllocator.Allocate | engine/include/Allocators.h:219-232 | head of the list, or one of the two errors |
| PoolObject.PoolAllocator.Deallocate | engine/include/Allocators.h:234-242 | null is ignored, any block is relinked at the head, and the pool stays valid exactly if the block was outstanding |
| PoolObject.PoolAllocator.WriteIntoBlock | engine/include/Allocators.h:205-207 | what an owner writes into its block does not reach the list |

## Left out

- PlayedOnTime: runs in which the master handles a fresh packet that ends at the frame about to be played are outside the main theorems; `HeadShot.HeadShotAgreesExactlyOnTime` proves that the real game agrees whatever is pressed on exactly the others.
- Progress under every schedule: a stale packet stays at the head of the queue with everything behind it (common/src/application.cpp:152), so packets need not ever be handled; what is handled is given exactly, and that everything is confirmed is proved for the lockstep schedule.
- Rematches: `Rollback::Reset` and the buffers and flags that survive `Restart`; a model run is one match.
- Photon calls, hashtable packing, memory deallocation, timers, keyboard, rendering and audio: packets are sequences of (frame, input) with a checksum, one fixed step is one event, the local input is arbitrary.
- `inputs_` and `frames_` of the application are one window of pairs, as they are only changed together; frame numbers are unbounded integers, since a match ends at frame 5400.
- IEEE rounding and the bit patterns in `CheckSum`: equal states have equal checksums, nothing else is used. Its twelve terms are added without wrap-around. Sixty frames make exactly one second.
- Bodies of zero mass, massless attached colliders, and stale collider references: the model of the world asks for what `MatchStart.StartIsOk` shows of `Setup`.
- Worlds that outgrow their hundred bodies and colliders: `Setup` uses nine and thirteen.
- The fields of `World` are fields of the class `Game`, and collider and body references are plain indices; generation numbers are never bumped by the code.
- After `Copy`, the child pointers of the copied quadtree point into the other game's pool until the next `SetUpRoot`; in the model they are indices of the own pool, and nothing relies on them.
- ContactObject.Contact.Resolve: the contact works on copies of its two bodies, which the world writes back, so bodies shared between the two sides are excluded as the traversal excludes them. Masses that are zero, or cancel each other, are excluded where the code divides by them, because over the reals there is no infinity.
- ContactObject.Contact.ResolveVelocityAndInterpenetration: masses that are zero are excluded, as for `Resolve`.
- ContactObject.Contact.ResolveInterpenetration: masses that are zero are excluded, as for `Resolve`.
- QuadTreeObject.QuadTree.Insert: the inner loops over children and entries are methods of their own.
- Polygons and their overlap tests: unused by the game, and the edge test does not cover containment.
- ContactPenetration.OrderKeepsVelocities: says nothing about positions, because the swapped case applies the displacement twice.
- BlockQueueObject.ExplicitProducer.DequeueBulk: claiming, and taking a claimed range, each happen without another operation in between; any number of claims may be open at the same time. The interleavings of the counters are in `Claims`. Consumers that look blocks up in an older index, weak memory orderings and the free list that blocks come from are not part of this model.
- BlockQueueObject.ExplicitProducer.TakeRange: one range is taken without another operation in between.
- BlockQueueObject.ExplicitProducer.Enqueue: asks that the 64-bit index has not wrapped around.
- The `size`, `empty` and destructor members of the two queues, and the rest of Tracy.
- The other allocators of the engine and the pointer arithmetic of the pool: blocks are numbers.
