# A verified model of the CollabVM server core

CollabVM lets many users share one virtual machine. This project models the parts of the server that decide who may do
what and when, and that keep its data in order, and proves what they promise:

- **The room of a machine**: the turn queue with the positions kept in its users and the timer that captures its head,
  the vote to restart the machine, the users of the channel and the reference-counted records of their addresses.
- **The way out**: the queue of outgoing messages of a socket and the zero-copy Cap'n Proto framing, in both
  implementations.
- **Recordings**: a file whose header is rewritten in place and points into its own body, and the two timers that drive it.
- **Protocols**: the start and stop of a guacamole client, which the strand and the client's thread share, the captcha
  pipeline, the round in which all machines are asked for their information, and the direct-chat handshake.
- **Settings**: the list in memory against the rows in the database, and the loader that fills in defaults.
- **Chat history and one-time passwords**: a ring that refines a log, and an implementation against its standards.

## How it is built

A handler on a strand is one step. A timer is part of the state: an expiry, the waits that are outstanding and the
completions that have been posted but not yet handled (`SteadyTimers`). Cancelling a timer, or giving it a new expiry,
turns its waits into aborted completions; a wait that has expired becomes a completion that a later cancel cannot recall.
A run is any sequence of calls, clock ticks and deliveries.

The code that works by changing objects is modelled by classes with the same fields and loops (`TurnControllers`,
`UserChannels`, `VmStates`, `Recordings`, `SocketMessages`, `SendQueues`, `CaptchaVerifiers`, `VmSettings`, `VmLists`,
`DirectChats`, `ChatRooms`). Their methods are proved equal to steps on values where several components have to be seen
together (`TurnQueue`, `VmRooms`, `RecordingClock`, `VmGather`, `DirectChats`), and the theorems about whole runs are
lemmas about those steps; `Run` methods carry them over to the objects. What the steps mean is said without them where
users notice it: how long turns, votes and cooldowns last and in which order turns are served (`TurnLength`,
`VoteRights`, `RoomTurns`), what lists and files contain (`GatherContents`, `RecordingFilter`) and what is answered
(`DirectAnswers`).

`dafny verify dfyconfig.toml` checks everything.

## What the code does not do

Some properties one would expect hold only under a condition. The model follows the code; the condition is proved to be
the exact one, or a lemma shows the failure.

- A vote that ends while the machine is inactive or votes are disabled leaves its votes behind
  (`VoteTally.VoteEndKeepsTallyIff`), and such a vote later takes a counter below zero (`VoteTally.StaleVoteUnderflows`).
- Pausing a turn twice gives the current user a full turn back (`BoundedWaiting.PausingTwiceRestartsTheTurn`).
- Cancelling a turn timer does not call back an expiry that is already on its way: it ends the turn of its user while
  paused, or right after the turn has been renewed (`TurnQueue.PauseHoldsIff`,
  `TurnQueue.StaleExpiryStandsBesideTheWait`).
- Starting a recording cancels a stop wait that is outstanding, and the handler of a cancelled stop wait stops whatever is
  then being recorded; an expired one starts a next file, which cancels the wait of this one. So a start lasts exactly
  when nothing was left on the stop timer (`RecordingEnd.StartLastsIff`), and no restart of a running recording lasts
  (`RecordingEnd.RestartsNeverLast`). Settings restart it, changed or not, once time has passed in a file, unless the
  duration shrinks to what is left (`RecordingEnd.LaterSettingsEndTheRecording`).
- With a duration of zero the end of a file is not acted on: the recording runs on (`RecordingEnd.EndIsLostIff`).
- Stopping does not call back expiries that are on their way: they can start a recording that has been stopped
  (`RecordingEnd.StopIsFinalIff`).
- The keyframe table can be found full exactly when the keyframe interval divides the duration of a file
  (`KeyframeCapacity.NeverExhaustedIff`): a keyframe that is due together with the end of a file, and is handled after it,
  is taken in the next file at once. This can end a recording that nobody touches
  (`KeyframeCapacity.UntouchedGoesOnIff`).
- After three failures in a row the captcha verifier keeps its failure count, so that the next request is rejected at its
  first failure (`CaptchaVerifiers.CaptchaVerifier.FailToConnect`).
- The size check at the end of a gather round fails unless as many machines become active after answering as lose counted
  information by going idle or being deleted (`GatherCheck.SizeCheckHoldsIff`); a machine created during a round leaves a
  blank entry (`GatherCheck.FilledIffAllHeard`); a machine with the id of a deleted one can be listed twice
  (`GatherCheck.NewMachineIsListedOnceIff`).
- The recipient of a direct chat stores itself as the peer, so that asking back links the rooms only while the first
  request is still on its way (`DirectChats.AskingBackLinksIff`); later it opens a room that is never linked
  (`DirectChats.LateRoomIsNeverLinked`).
- Asking for a direct chat with somebody one has a room with is answered with the id of the room at the other end, zero
  while that is unknown, where all other answers name the asker's own (`DirectAnswers.RoomToldIff`).
- A recording that should have ended already is left alone by settings that set no duration, even when they change what
  is captured (`RecordingSettings.SettingsTakeEffect`).
- A setting given twice in one update ends up with its first value in memory and its last in the database
  (`VmSettings.AgreementIsKeptIff`).
- The loader inserts defaults under keys that may exist, which breaks the primary key and fails the start
  (`SettingsLoader.LoadingSucceedsIff`).
- The list in which the settings of all machines are read is not renewed after the first, so that a machine with more
  settings than the one before it would be written past its end (`SettingsLoader.OneMachineForEachGroup`); the loader
  avoids this only by completing every machine.
- The history of a channel does not keep the type of a sender: every stored message is a guest's
  (`ChatRooms.CollabVmChatRoom.GetChatHistory`).

## Model

| member | source | states |
|---|---|---|
| TurnQueue.StepKeepsInv | TurnController.hpp:77-177 | whatever is called, nobody is queued twice, at most one wait is live and none while paused, and a running queue has the live wait, or the queued expiry, of its head |
| TurnQueue.RunKeepsInv | TurnController.hpp:16-39 | the same after any run of calls, ticks and deliveries, late and stale ones included |
| TurnQueue.DeliverKeepsInv | TurnController.hpp:26-35 | a completion delivered late, for a user who is no longer the head or no longer queued, keeps queue and timer in agreement |
| TurnQueue.RemoveKeepsInv | TurnController.hpp:97-122 | removing any user, queued or not, keeps queue and timer in agreement |
| TurnQueue.WithoutKeepsOthers | TurnController.hpp:103-106 | a removal keeps everybody else queued, once, and the head unless it is the one removed |
| TurnQueue.WithoutMovesUp | TurnController.hpp:106-110 | users in front of the one removed keep their positions, users behind move up by one |
| TurnQueue.DeliveryChangesQueueIff | TurnController.hpp:28-34 | a completion changes the queue exactly when it is the expiry of a user who is queued, wherever that user stands and even while paused |
| TurnQueue.PauseHoldsIff | TurnController.hpp:130-138 | a pause holds the turns exactly when no expiry of a queued user was already on its way |
| TurnQueue.StaleExpiryStandsBesideTheWait | TurnController.hpp:130-153 | pausing after the expiry has been queued, and resuming, leaves that expiry beside the new wait, and it ends the renewed turn |
| BoundedWaiting.StepLowersPotential | TurnController.hpp:77-153 | the time a waiting user may still have to wait is raised by no step of anyone, and lowered by every unpaused tick |
| BoundedWaiting.WaitingIsBounded | TurnController.hpp:16-39 | over any allowed run a user at position k > 0 is head or gone within the rest of the turn and k - 1 more turns of unpaused time |
| BoundedWaiting.HeadCanBeReplaced | TurnController.hpp:26-34 | when the clock has reached the expiry, the event loop can end the head's turn without time passing |
| BoundedWaiting.PauseKeepsPotentialIff | TurnController.hpp:130-138 | a pause delays nobody exactly when the turn was running with time left, or had a full turn left |
| BoundedWaiting.PausingTwiceRestartsTheTurn | TurnController.hpp:133-136 | pausing twice gives a turn with one unit left its full length back |
| TurnLength.NewHeadHasAFullTurn | TurnController.hpp:77-122 | whoever becomes the head of a queue that is not paused, by a request, a removal, an ended turn or an expiry, has the whole turn time ahead, and the timer waits for nobody else |
| TurnLength.TurnTimeIsAccounted | TurnController.hpp:77-153 | what is left of a turn is renewed by a new head and by pausing a turn that does not run, reduced by unpaused ticks, and changed by nothing else |
| TurnLength.RunIsAccounted | TurnController.hpp:16-39 | over any run what is left of the turn is what this account says |
| TurnLength.OnlyTheirCallsChange | TurnController.hpp:124-153 | only a pause pauses, only a resume resumes, and the turn time is the one last set |
| TurnLength.CalledBackIsAborted | TurnController.hpp:130-177 | a pause and a clearing of the queue abort the wait that is outstanding, and touch no completion that is on its way |
| TurnLength.TurnIsNotCutShort | TurnController.hpp:26-35 | while nobody pauses, clears or ends turns and the head does not leave, it stays the head for as long as its turn has left, whatever others do and whichever completions are run |
| TurnLength.EveryTurnLastsTheTurnTime | TurnController.hpp:85-116 | so a new head with no old expiry on its way keeps the turn for the turn time set at that moment |
| TurnLength.WhoIsQueued | TurnController.hpp:77-177 | exactly the users queued before who did not leave, end or lose their turn are queued after a step, and the one who asked |
| TurnLength.OrderIsKept | TurnController.hpp:83-110 | users who stay keep their order, and one who joins stands behind everybody |
| TurnLength.FirstComeFirstServed | TurnController.hpp:63-68 | over any run nobody who came later becomes the head while an earlier user stays queued |
| TurnControllers.TurnController.PositionsAreExact | TurnController.hpp:63-68 | in every reachable state queue[i] stores position i, and users outside the queue store none |
| TurnControllers.TurnController.RequestTurn | TurnController.hpp:77-95 | the decision by the stored position equals the decision by membership, and the new state is the request step |
| TurnControllers.TurnController.MoveUp | TurnController.hpp:106-110 | the loop over the users behind lowers each position by one and touches no other |
| TurnControllers.TurnController.RemoveUser | TurnController.hpp:97-122 | erasing at the stored position removes exactly the user, and the new state is the removal step, which gives the next head a full turn (`TurnLength.NewHeadHasAFullTurn`) |
| TurnControllers.TurnController.PauseTurnTimer | TurnController.hpp:130-138 | the saved time is the remaining time if a wait was live and time was left, else a full turn; the new state is the pause step |
| TurnControllers.TurnController.ResumeTurnTimer | TurnController.hpp:145-153 | resuming waits for the head for the saved time; nothing happens when not paused |
| TurnControllers.TurnController.EndCurrentTurn | TurnController.hpp:155-162 | the head, and nobody else, loses its turn |
| TurnControllers.TurnController.Clear | TurnController.hpp:164-177 | queue, stored positions and the live wait are gone; the pause stays |
| TurnControllers.TurnController.RunCompletion | TurnController.hpp:28-34 | a completion removes the user captured by its wait unless it was aborted |
| TurnControllers.TurnController.Run | TurnController.hpp:10-177 | over any run the objects behave as the value model, so that its theorems hold of the code |
| VoteTally.RunKeepsInv | AdminVirtualMachine.hpp:530-580 | however votes end: at most one user of an address is decided and its address is flagged, reference counts are exact, the vote timer fits the phase, and disabled turns mean an empty queue |
| VoteTally.RunKeepsTally | VoteController.hpp:68-159 | when every vote ends with the machine active and votes enabled, the counters are the numbers of users who last voted yes and no, and outside a vote nothing is left of it |
| VoteTally.VoteEndKeepsTallyIff | AdminVirtualMachine.hpp:555-579 | a vote that ends leaves nothing behind exactly when it ends announced, or no user present holds vote data and no address present is flagged |
| VoteTally.StaleVoteUnderflows | VoteController.hpp:150-159 | a vote left behind takes the yes counter below zero when its user leaves after a later vote |
| VoteTally.StaleVoteIsReachable | AdminVirtualMachine.hpp:555-559 | from a new machine, a vote cast while it is inactive and then cancelled leads there, for any settings with votes enabled |
| VoteTally.NoCounterUnderflows | VoteController.hpp:150-159 | with exact tallies, taking back a vote really subtracts one |
| VoteTally.RemoveUserKeepsTally | AdminVirtualMachine.hpp:321-333 | leaving takes back exactly the vote of the user who leaves |
| VoteTally.VoteKeepsTally | VoteController.hpp:68-148 | a vote that starts, counts, repeats or is refused keeps the counters exact |
| VoteTally.OnVoteEndClears | AdminVirtualMachine.hpp:555-579 | an announced end leaves every user undecided and no address flagged |
| VoteTally.ClearingKeepsIpTable | AdminVirtualMachine.hpp:568-577 | clearing flags by way of the users misses none because every listed address has a user |
| VoteTally.LeaveKeepsIpTable | UserChannel.hpp:147-156 | the record of an address goes with its last user and not before |
| VoteTally.JoinKeepsIpTable | UserChannel.hpp:63-68 | joining counts the user at its address and at no other |
| VoteTally.ResultIsMajority | VoteController.hpp:90-118 | the announced result is whether at least as many present users stand for yes as for no, and false for a stopped vote |
| VoteTally.VotesAreNeverChanged | AdminVirtualMachine.hpp:535-547 | in every run a vote that has an effect comes from an address where nobody has decided |
| VoteTally.VotesAtMostIps | AdminVirtualMachine.hpp:530-549 | during a vote no more votes are counted than there are addresses present |
| VoteTally.EmptyRoomIsExact | AdminVirtualMachine.hpp:132-151 | a new machine meets the invariants |
| VoteTally.TurnEventKeepsInv | AdminVirtualMachine.hpp:43-91 | the guards on the turn calls keep the queue empty while turns are disabled |
| VoteTally.ApplySettingsKeepsInv | AdminVirtualMachine.hpp:385-417 | disabling turns empties the queue, and disabling votes stops the vote, without breaking any invariant |
| VoteRights.VoteIsCountedIff | AdminVirtualMachine.hpp:530-549 | a vote uses up its address exactly when its user is present and registered or guests may vote, the address is unused, votes are enabled, and it begins a round with a yes or is below the limit in one; it then counts once, for what was chosen |
| VoteRights.UncountedVoteIsNoted | VoteController.hpp:123-128 | a vote that is not counted changes nothing, except that during a round an attempt at the limit is noted with the user |
| VoteRights.CountedVoteIsNoted | VoteController.hpp:123-141 | a counted vote is one attempt more, and was below the limit |
| VoteRights.FirstVoteSetsTheTime | VoteController.hpp:75-89 | the first vote sets the end of the round by the vote time, and no later vote moves it |
| VoteRights.UsersComeAndGo | UserChannel.hpp:63-168 | a user is in the channel from joining to leaving, with the address, registration and rights given when joining |
| VoteRights.VoteDataChanges | AdminVirtualMachine.hpp:530-579 | the vote data of a user changes by the user's own vote and by an announced end alone |
| VoteRights.FlagsChange | AdminVirtualMachine.hpp:539-577 | an address is used up by a counted vote from it and given back by an announced end, and by nobody joining or leaving |
| VoteRights.OneVotePerAddress | AdminVirtualMachine.hpp:539-547 | over any run, once an address has voted no vote from it has any effect until a result is announced, whoever leaves or joins there, as long as somebody stays |
| VoteRights.GuestsNeverVote | AdminVirtualMachine.hpp:535-538 | over any run whose settings exclude guests, no guest's vote data changes, and whoever has decided is registered |
| VoteRights.PhasesFollow | VoteController.hpp:75-148 | a round begins with a counted vote, ends with the completion of its wait, and is followed by a cooldown exactly when it ran out with votes enabled and a cooldown is set |
| VoteRights.PhasesAreTimed | VoteController.hpp:87-108 | the vote timer is set for the vote time at the beginning of a round, for the cooldown time at the beginning of a cooldown, and never otherwise |
| VoteRights.ResultsAreAnnounced | VoteController.hpp:90-118 | a result is announced when a round ends in an active machine with votes enabled and at no other time, and says passed when time was up with no fewer ayes than noes |
| VoteRights.CancelledRoundFails | VoteController.hpp:161-163 | a round cancelled, or whose votes are disabled, before its time is up does not pass |
| VoteRights.PhaseIsNotCutShort | VoteController.hpp:87-118 | a round or cooldown that nobody cancels lasts until its time is up, and nothing is announced before |
| VoteRights.RoundLastsTheVoteTime | VoteController.hpp:87-108 | so a round lasts the vote time, and after it no round begins before the cooldown time has passed |
| RoomTurns.TurnIsEndedIff | AdminVirtualMachine.hpp:79-91 | the current turn is ended exactly when turns are enabled and the one who asks has it or is an administrator present; then the next user is the head |
| RoomTurns.RunIsTurnRun | AdminVirtualMachine.hpp:43-91 | the turns of a room go through a run of the turn queue, so that its theorems hold of rooms; calls made while turns are disabled are no step of it |
| RoomTurns.WhoIsQueued | AdminVirtualMachine.hpp:43-91 | a user is queued from asking while turns are enabled until leaving the channel, losing or ending the turn, or turns being disabled |
| RoomTurns.RunKeepsSettings | AdminVirtualMachine.hpp:385-417 | over any run the turn time is the one last set, and while votes are disabled no wait of a vote is outstanding |
| RoomTurns.DisabledVotesDoNothing | AdminVirtualMachine.hpp:402-408 | while votes stay disabled no round begins and no result is announced, and a round under way can only end |
| UserChannels.UserChannel.AddUser | UserChannel.hpp:63-68 | users of one address share one record, which counts them; all other users and records stay as they were |
| UserChannels.UserChannel.ReleaseIp | UserChannel.hpp:153-156 | the shared record loses one reference and leaves the table with the last |
| UserChannels.UserChannel.Erase | UserChannel.hpp:167-168 | the user leaves the table and no other user is touched |
| UserChannels.UserChannel.FlagIp | AdminVirtualMachine.hpp:539-547 | flagging by way of one user flags the record all users of its address share |
| UserChannels.UserChannel.ClearVotes | UserChannel.hpp:40-50 | the loop over the users resets every decision and every record of the table |
| VmStates.VmState.AddUser | UserChannel.hpp:63-68 | on objects, joining is the joining step of the room |
| VmStates.VmState.RemoveUser | UserChannel.hpp:147-168 | on objects, leaving is the leaving step of the room: the queue, the vote and the address record in the order of the code |
| VmStates.VmState.AddVote | VoteController.hpp:68-148 | the counters, the user's vote data and the timer change as in the voting step, for each phase and limit |
| VmStates.VmState.RemoveVote | VoteController.hpp:150-159 | the counter of the user's decision is taken back, and the user's data becomes undecided |
| VmStates.VmState.Vote | AdminVirtualMachine.hpp:530-549 | absent users, guests when excluded, and used-up addresses change nothing; any other vote is the voting step, whose effect is `VoteRights.VoteIsCountedIff` |
| VmStates.VmState.OnVoteEnd | AdminVirtualMachine.hpp:555-579 | the early return leaves everything, an announced end resets all users and addresses |
| VmStates.VmState.OnVoteOver | VoteController.hpp:90-118 | an aborted or disabled vote fails, any other is decided by the counters, with or without a cooldown |
| VmStates.VmState.RunCompletion | VoteController.hpp:89-109 | the completions of the vote timer are the delivery steps of the room |
| VmStates.VmState.ApplySettings | AdminVirtualMachine.hpp:385-417 | on objects, new settings are the settings step of the room |
| VmStates.VmState.EndCurrentTurn | AdminVirtualMachine.hpp:79-91 | the user whose turn it is and every administrator in the channel may end the turn, nobody else |
| VmStates.VmState.Run | AdminVirtualMachine.hpp:124-151 | over any run in which only absent users join, the objects take the steps of the room, keep its invariant, and keep exact tallies when every vote ends announced |
| KeyframeCapacity.NeverExhaustedIff | RecordingController.hpp:82-92 | with unchanged settings and a clock that runs past no expiry, the restart for a full keyframe table is unreachable exactly when the interval does not divide the duration |
| KeyframeCapacity.UntouchedGoesOnIff | RecordingController.hpp:82-92 | a recording that nobody touches goes on, file after file, in every run with the clock on time exactly when the interval does not divide the duration |
| KeyframeCapacity.EvenIsExhausted | RecordingController.hpp:254-262 | for every table size, an interval that divides the duration has a run that finds the table full, and the restart this causes does not last |
| KeyframeCapacity.UnevenIsNeverExhausted | RecordingController.hpp:254-274 | otherwise no run does, through any number of files and in any order of deliveries |
| KeyframeCapacity.NeverDueTogether | RecordingController.hpp:82-92 | because then no keyframe is due together with the end of a file |
| RecordingClock.TableIsNeverExhausted | RecordingController.hpp:82-92 | for any interval the restart is unreachable when a keyframe that is due together with the end of a file is always handled first |
| RecordingClock.StartIsOnSchedule | RecordingController.hpp:77-96 | a file that has just been started is on schedule, whatever keyframes the one before it had |
| RecordingClock.KeyframeFits | RecordingController.hpp:254-274 | a keyframe due by the end of the file has a place in a table of duration / interval entries |
| RecordingEnd.StartLastsIff | RecordingController.hpp:53-96 | a recording that is started lasts, however the completions of the stop timer are run, exactly when nothing was left on that timer, neither a wait nor a completion, cancelled or expired |
| RecordingEnd.SettingsRestartLastsIff | RecordingController.hpp:42-47 | the same for a restart by new settings |
| RecordingEnd.FullTableRestartLastsIff | RecordingController.hpp:260-263 | the same for a restart because the keyframe table is full |
| RecordingEnd.NextFileLastsIff | RecordingController.hpp:86-92 | the same for the next file when the stop timer expires, whose own wait is used up |
| RecordingEnd.EndIsLostIff | RecordingController.hpp:53-56 | while something is recorded its end is waited for or on its way; the one step that loses it is an expiry after the duration has been set to zero |
| RecordingEnd.RestartsNeverLast | RecordingController.hpp:42-47 | so after any calls, ticks and deliveries, while no call sets the duration to zero, no restart of a running recording lasts, by settings or for a full table |
| RecordingEnd.LaterSettingsEndTheRecording | RecordingController.hpp:42-47 | once time has passed in a file, a call with settings restarts the recording and does not let it last, unless the duration shrinks to what is left |
| RecordingEnd.StopIsFinalIff | RecordingController.hpp:98-114 | a stopped recording stays stopped in every run without calls exactly when no expiry was on its way that starts a file, at once or by keyframes that go on until the table is full |
| RecordingFiles.HeaderRewriteKeepsBody | RecordingController.hpp:278-286 | a header rewritten in place leaves the body and the position at the end of the file |
| RecordingFiles.AppendKeepsLayout | RecordingController.hpp:126-138 | a message is added behind everything recorded so far |
| RecordingFiles.OffsetsIncrease | RecordingController.hpp:265-273 | the keyframe offsets in the table increase strictly |
| RecordingFiles.AppendKeepsTable | RecordingController.hpp:245-247 | the message after a noted keyframe must open a snapshot, and later messages leave the table exact |
| RecordingFiles.NewKeyframePoints | RecordingController.hpp:265-273 | the offset noted for a keyframe is where the next message will start, on a message boundary |
| RecordingSettings.SettingsTakeEffect | RecordingController.hpp:28-51 | new settings keep a file that lasts as long as they ask for, with a keyframe exactly when the interval or what is captured changed, and replace one that would end sooner |
| RecordingSettings.SettingsDoNotStart | RecordingController.hpp:39-41 | settings do not start a recording |
| RecordingFilter.RecordedAreTheWanted | RecordingController.hpp:190-222 | a file gets exactly the messages that are wanted, each once and in order: display, input and audio instructions if captured, and blobs and ends unless an uncaptured audio instruction opened their stream and it has not ended since |
| RecordingFilter.UncapturedLeavesNothing | RecordingController.hpp:201-220 | any sequence of messages of kinds that are not captured leaves nothing in the file |
| RecordingFilter.AudioIsLeftOutWhole | RecordingController.hpp:201-210 | an uncaptured audio stream is left out from its opening to its end, which is left out too, and its number is recorded again afterwards |
| RecordingFilter.IgnoredAreMuted | RecordingController.hpp:203-210 | the set of ignored streams is at each moment that of the streams opened for uncaptured audio and not ended |
| Recordings.RecordingController.WriteFileHeader | RecordingController.hpp:278-286 | only the bytes of the header change, and the position is restored; on an empty file the header is appended |
| Recordings.RecordingController.ShouldRecordMessage | RecordingController.hpp:190-222 | the decision and the ignored streams are those of the filter, which records exactly the wanted messages (`RecordingFilter.RecordedAreTheWanted`) |
| Recordings.RecordingController.WriteMessage | RecordingController.hpp:126-149 | a recorded message follows all earlier ones, its timestamp in front of it; a filtered one changes no byte |
| Recordings.RecordingController.OnKeyframeInRecording | AdminVirtualMachine.hpp:621-639 | a snapshot is recorded in order, starting with the list of users |
| Recordings.RecordingController.StartKeyframeTimer | RecordingController.hpp:245-276 | a snapshot is written and the timer set anew, or cancelled without an interval |
| Recordings.RecordingController.Stop | RecordingController.hpp:98-114 | the timers are cancelled and the file is closed, once |
| Recordings.RecordingController.CloseFile | RecordingController.hpp:104-110 | the closed file is its header, with the time of its end, followed by everything recorded, and its table points at its snapshots |
| Recordings.RecordingController.Start | RecordingController.hpp:53-96 | a running file is finished first; the new one has an empty table and starts with a snapshot |
| Recordings.RecordingController.NoteKeyframe | RecordingController.hpp:258-273 | the cursor, the count and the table grow together, in memory and in the file: the next entry gets the end of the file and the time, and no other entry changes |
| Recordings.RecordingController.TakeKeyframe | RecordingController.hpp:265-274 | the noted offset is where the snapshot that follows starts, beside the time it was taken |
| Recordings.RecordingController.RunKeyframeCompletion | RecordingController.hpp:254-275 | an aborted completion does nothing, a full table restarts the file, any other completion adds one keyframe |
| Recordings.RecordingController.RunStopCompletion | RecordingController.hpp:86-92 | an aborted completion stops the recording, an expiry starts the next file |
| Recordings.RecordingController.SetRecordingSettings | RecordingController.hpp:28-51 | a file that would end too early for the new duration is finished and restarted; otherwise the same file goes on, with a snapshot exactly when the interval, display or audio capture changed |
| Recordings.RecordingController.Run | RecordingController.hpp:28-276 | over any run of calls, written messages, ticks, expiries and deliveries the timers take the steps of the clock, all files are well formed, no finished one is changed or forgotten, and between snapshots the file gets what the messages written add to it |
| GuacamoleHandshake.RunKeepsInv | GuacamoleClient.hpp:155-244 | over all interleavings of strand and thread the atomic state tells whether the image has been seen and a stop asked for, a running client is reported started, and what is settled stays settled |
| GuacamoleHandshake.StartsAndStopsAtMostOnce | GuacamoleClient.hpp:214-242 | a start is posted at most once, guac_client_stop is called at most once and never on a released client; when they do happen is said by the rows below |
| GuacamoleHandshake.UnstoppedClientIsReported | GuacamoleClient.hpp:214-242 | in every interleaving a client that nobody has stopped or disconnected has been reported started once its image has been handled |
| GuacamoleHandshake.StartIsReportedIff | GuacamoleClient.hpp:223-239 | whatever else happens before and after, the client is reported started exactly when no stop had been asked for and nothing disconnected when its image was handled, and is stopped otherwise |
| GuacamoleHandshake.PostedTasksAreRun | GuacamoleClient.hpp:228-232 | a posted start is posted until it has been run, and a client whose thread is gone is freed or about to be |
| GuacamoleHandshake.UnwantedStartIsStopped | AdminVirtualMachine.hpp:867-875 | a start that is run when it is no longer wanted stops the client, a wanted one does not |
| GuacamoleHandshake.StopIsNeverLost | GuacamoleClient.hpp:70-79 | a stop asked for before any disconnect or exit is carried out exactly once in every continuation that reaches the image |
| GuacamoleHandshake.NoStopUnasked | GuacamoleClient.hpp:223-238 | nobody stops a client that was neither asked to stop nor disconnected |
| StreamFraming.FrameRoundTrip | SocketMessage.hpp:41-64 | decoding a frame, with anything behind it, gives back the segments and what is behind |
| StreamFraming.FrameLayout | SocketMessage.hpp:41-64 | a frame is laid out as the specification says: the number of segments minus one, their sizes in words, little-endian and padded to a word, then the segments, ending on a word |
| StreamFraming.BatchRoundTrip | CollabVmServer.hpp:1585-1611 | decoding a concatenation of frames gives back the messages in order and nothing else |
| StreamFraming.EncodeAllAppend | CollabVmServer.hpp:1594-1598 | the buffers of a batch are the frames of its messages one after the other |
| SocketMessages.SharedSocketMessage.CreateFrame | SocketMessage.hpp:41-64 | the table is the one of the serialization format, the views stay good because it never outgrows its reserve, and a second call changes nothing |
| SocketMessages.SharedSocketMessage.GetBuffers | SocketMessage.hpp:35-38 | the buffers one after the other are the frame of the message |
| SocketMessages.CapnpMessageFrameBuilder.Build | CapnpMessageFrameBuilder.hpp:10-24 | whatever it held before, the builder makes the same table as the shared message |
| SendQueues.SendQueue.QueueMessage | CollabVmServer.hpp:1639-1659 | the message is behind all accepted ones; an idle socket starts writing it |
| SendQueues.SendQueue.QueueMessageBatch | CollabVmServer.hpp:1661-1683 | the non-null messages are behind all accepted ones, in order |
| SendQueues.BatchIsKeptInOrder | CollabVmServer.hpp:1668-1676 | of a batch each message that is not null is kept once, in its place among the others, and nothing else |
| SendQueues.SendQueue.SendMessageCallback | CollabVmServer.hpp:1613-1636 | a completed write is followed by everything queued, a failed one by nothing |
| SendQueues.SendQueue.SendMessageBatch | CollabVmServer.hpp:1585-1611 | the loop empties the queue into one write in order |
| SendQueues.SendQueue.Run | CollabVmServer.hpp:1569-1683 | in every interleaving, from any state, written, in flight and queued grow by exactly the messages enqueued, in order; after a failed write nothing more reaches the socket |
| SendQueues.SendQueue.WireIsReadable | CollabVmServer.hpp:1569-1611 | what has been handed to the socket decodes to the messages in order |
| CaptchaVerifiers.CaptchaVerifier.Verify | CaptchaVerifier.hpp:92-117 | without enabled settings every token passes at once, an empty one fails at once, any other request is accepted and waits its turn |
| CaptchaVerifiers.CaptchaVerifier.Connect | CaptchaVerifier.hpp:119-158 | pending settings are taken over and reset the failures; there always are settings to connect with |
| CaptchaVerifiers.CaptchaVerifier.SendRequest | CaptchaVerifier.hpp:167-235 | there always are settings and a request to send |
| CaptchaVerifiers.CaptchaVerifier.OnResponse | CaptchaVerifier.hpp:209-225 | exactly the current request is answered, and the oldest of the queue becomes current |
| CaptchaVerifiers.CaptchaVerifier.Retry | CaptchaVerifier.hpp:237-254 | the third failure in a row rejects all unanswered requests in order, an earlier one answers none |
| CaptchaVerifiers.CaptchaVerifier.Advance | CaptchaVerifier.hpp:129-196 | resolving, connecting, shaking hands and writing lead to the next operation when they succeed and to a retry when they fail, and touch no request |
| CaptchaVerifiers.CaptchaVerifier.Deliver | CaptchaVerifier.hpp:127-158 | every continuation keeps the pipeline: accepted requests are those answered, then the current one, then the queue, with one continuation exactly while a request is current |
| CaptchaVerifiers.CaptchaVerifier.VerifyAll | CaptchaVerifier.hpp:106-109 | requests that arrive while one is being checked join the queue in order, if they have to be checked |
| CaptchaVerifiers.CaptchaVerifier.FailToConnect | CaptchaVerifier.hpp:237-253 | failed connects in a row empty the pipeline at the third, and at the first once the limit has been reached, rejecting in order whatever has arrived between any two steps as well |
| CaptchaVerifiers.CaptchaVerifier.Run | CaptchaVerifier.hpp:64-254 | in every interleaving each accepted request is answered at most once, in order of arrival, and answers are never taken back |
| VmSettings.Database.UpdateVmSettings | Database/Database.cpp:199-209 | the last update of each setting is in its row, no row appears, and no other row changes |
| VmSettings.Database.CreateVm | Database/Database.cpp:187-197 | the rows of a new machine hold its list, and the rows of the others stay |
| VmSettings.FindUpdate | Database/Database.h:272-277 | the first update of a setting is found, if there is one |
| VmSettings.UpdateList | Database/Database.h:263-291 | the new list holds the first update of each setting and the old value of the others |
| VmSettings.RefusedIff | AdminVirtualMachine.hpp:943-957 | settings are refused exactly when they enable turns or votes without a time above zero for them |
| VmSettings.VirtualMachine.UpdateSettings | AdminVirtualMachine.hpp:799-832 | a valid merge changes memory and database, an invalid one neither, and the list stays canonical |
| VmSettings.VirtualMachine.UpdateManyTimes | AdminVirtualMachine.hpp:799-832 | after any sequence of updates without repeated settings memory and database agree, whichever were accepted, and turns and votes that are enabled have a time |
| VmSettings.AgreementIsKeptIff | Database/Database.h:263-291 | an accepted update keeps memory and database in agreement exactly when the first and last value it gives to each setting are equal |
| VmSettings.NoRepeatsKeepAgreement | Database/Database.cpp:199-209 | an update without repeated settings keeps the agreement |
| VmSettings.OtherMachinesAreKept | Database/Database.cpp:199-209 | the update of one machine keeps the agreement of all others |
| SettingsLoader.ReadVmSettings | Database/Database.h:195-252 | the loop over the rows computes the scan, and stops where a key would be inserted twice |
| SettingsLoader.LoadingSucceedsIff | Database/Database.h:195-252 | the scan succeeds exactly when each machine has stored its first settings under their own ids; it then emits every setting of each machine once and in order, and leaves that list in the table |
| SettingsLoader.LoadGroup | Database/Database.h:201-214 | the defaults of one machine complete its list, and fail on a gap or a wrong field |
| SettingsLoader.GapRepeatsAnId | Database/Database.h:203-212 | ids that are not 0, 1, 2, ... leave one that is inserted again |
| SettingsLoader.ScanIsGrouped | Database/Database.h:215-225 | a scan in key order falls into one group of increasing ids for each machine |
| SettingsLoader.BuildMachines | CollabVmServer.hpp:2382-2416 | the callback's walk with its one reused list, cut for each machine and never enlarged again, computes the builder's fold |
| SettingsLoader.OneMachineForEachGroup | CollabVmServer.hpp:2384-2416 | the walk stays inside the reused list exactly when no machine has more settings than the one before; then exactly one machine is built for each id, in order, from its own full list |
| SettingsLoader.EquallyLongFit | CollabVmServer.hpp:2384-2387 | lists of one length, as the loader completes them, always fit |
| SettingsLoader.GetInitialSettings | AdminVirtualMachine.hpp:172-204 | the list is canonical unless a full list was given that is not; for increasing ids both branches give each setting once, the given value or the default |
| SettingsLoader.FullListIsCanonical | AdminVirtualMachine.hpp:174-181 | as many increasing ids as there are settings are all of them in order |
| SettingsLoader.LoadMachines | CollabVmServer.hpp:2382-2416 | start-up fails exactly for a machine whose rows are no prefix; otherwise there is one machine for each stored id, each of its settings is the stored one or else its default, and the table holds that too, with nothing stored changed |
| VmGather.RunKeepsInv | CollabVmServer.hpp:2595-2735 | over any quiet run the administrators' list has one entry for each machine, the viewers' list one for each machine with information, and the counters of the round are exact |
| VmGather.RoundEndsAtLastReply | CollabVmServer.hpp:2628-2662 | the round ends exactly with the last answer, the lists fill their reserved size, and their entries are what the machines told last |
| VmGather.RoundTakesEveryAnswer | CollabVmServer.hpp:2602-2631 | a round ends after exactly as many answers as machines were asked, in any order |
| GatherCheck.SizeCheckHoldsIff | CollabVmServer.hpp:2662-2662 | in any run, with machines created, deleted and changing at any time, the size check holds exactly when as many machines lose counted information, by going idle, by being deleted, or by being deleted before their answer, as become active after their answers |
| GatherCheck.AnyRunKeepsWeak | CollabVmServer.hpp:2595-2735 | in any run the answers still due are those of the machines asked and of those deleted since, and only machines that have answered hold information |
| GatherCheck.FilledIffAllHeard | CollabVmServer.hpp:2641-2653 | the administrators' list is filled, one entry from each machine in order, exactly when every machine has been heard; otherwise its last entry is blank |
| GatherCheck.NewMachineIsListedOnceIff | CollabVmServer.hpp:2483-2496 | a new machine that becomes active is listed once for viewers exactly when its id is not that of a deleted machine they still see |
| GatherCheck.DeletedStaysListed | CollabVmServer.hpp:2435-2453 | a deleted machine that viewers see stays in their list |
| VmGather.DirectUpdateKeepsInv | CollabVmServer.hpp:2700-2727 | an update outside a round keeps both lists without duplicates and equal to the machines, and to those marked |
| GatherContents.DirectUpdateIsShown | CollabVmServer.hpp:2700-2727 | an update outside a round is shown at once: to administrators as told, to viewers as told while the machine is active and not at all otherwise; no other entry changes |
| GatherContents.RoundAsksEveryMachine | CollabVmServer.hpp:2595-2605 | a round asks exactly the machines there are, counts them, and changes no list; while one is under way nothing happens |
| GatherContents.RunKeepsExact | CollabVmServer.hpp:2595-2735 | over any quiet run what each machine told last is kept for the end of the round or shown in the lists |
| GatherContents.ListsSayWhatWasToldLast | CollabVmServer.hpp:2595-2735 | so whenever no round is under way each entry of both lists is what its machine told last, by answer or by update |
| VmLists.ResizableList.RemoveFirst | CollabVmServer.hpp:2786-2802 | with exactly one match the copy without it fills the smaller list in order |
| VmLists.ResizableList.Add | CollabVmServer.hpp:2769-2783 | the copied list is the old one and the new entry |
| VmLists.ResizableList.UpdateElement | CollabVmServer.hpp:2805-2819 | matching entries are replaced in place |
| VmLists.VirtualMachinesList.UpdateVirtualMachineInfoList | CollabVmServer.hpp:2595-2605 | every machine is asked once, and a round under way is not disturbed |
| VmLists.VirtualMachinesList.OnAnswer | CollabVmServer.hpp:2608-2662 | an answer is the reply step, that of a machine deleted meanwhile is only counted, and the size check tells whether the list was filled; in quiet runs it is |
| VmLists.VirtualMachinesList.FinishRound | CollabVmServer.hpp:2641-2662 | the loop writes the entries from the front, leaves the rest blank, and frees what was pending |
| VmLists.VirtualMachinesList.OnUpdate | CollabVmServer.hpp:2685-2727 | a single update, early, late or of changed presence, is the update step, which shows what was told (`GatherContents.DirectUpdateIsShown`), and keeps the lists exact in quiet runs |
| VmLists.VirtualMachinesList.AddAdminVirtualMachine | CollabVmServer.hpp:2483-2496 | a new machine gets an entry for administrators and none for viewers, during a round or not |
| VmLists.VirtualMachinesList.RemoveAdminVirtualMachine | CollabVmServer.hpp:2435-2454 | the machine and its entry for administrators are gone, during a round or not; the viewers' list is not touched |
| VmLists.QuietRunsMeetTheChecks | CollabVmServer.hpp:2662-2662 | in quiet runs the conditions the program asserts in its handlers hold |
| DirectChats.StepKeepsInv | CollabVmServer.hpp:527-667 | after every step a room whose request is under way exists with its recipient as peer, an accepted request has its room at the other end, and a user has at most one room for each other user |
| DirectChats.RunKeepsRooms | CollabVmServer.hpp:548-571 | over any run a user holds at most ten rooms, no room id is given twice, and a peer id is written at most once |
| DirectChats.RoomChanges | CollabVmServer.hpp:572-640 | a room is linked only by the request of its peer or the answer to its own, and is erased only with the reply that the recipient's limit is reached |
| DirectChats.CrossingRequestsLink | CollabVmServer.hpp:527-667 | two crossing requests between users without a room for each other link the rooms mutually once both are delivered, whatever else happens |
| DirectChats.AcceptedRequestLinksIff | CollabVmServer.hpp:617-640 | an accepted request links both rooms exactly when the sender's room has not been linked to another one meanwhile |
| DirectChats.AskingBackLinksIff | CollabVmServer.hpp:527-667 | asking back links the two rooms to each other, in every run that ends both requests, exactly when the first request is still on its way; once it has been accepted or refused it is too late |
| DirectChats.AskingBackIsTooLate | CollabVmServer.hpp:619-622 | after accepting, the recipient does not know the sender as a peer and opens a second room when asking back |
| DirectChats.LateRoomIsNeverLinked | CollabVmServer.hpp:577-600 | that second room stays unlinked in every run |
| DirectAnswers.StepTells | CollabVmServer.hpp:527-655 | what each event tells, to whom and in which order, depending on who is known, linked and full |
| DirectAnswers.AnnouncedRoomsAreLinked | CollabVmServer.hpp:624-655 | a user told of a new channel has a room that leads to the other user's and back, and both are told |
| DirectAnswers.LimitsAreToldIff | CollabVmServer.hpp:547-604 | a user is told that a limit is reached exactly when it is, and a refused room is closed |
| DirectAnswers.RefusedIff | CollabVmServer.hpp:590-604 | a request comes back refused exactly when the recipient has no room with the sender and ten others |
| DirectAnswers.RoomToldIff | CollabVmServer.hpp:563-568 | the room told is the sender's own, except to a sender who has one already, who is told the room at the other end |
| DirectAnswers.EveryRequestIsAnsweredOnce | CollabVmServer.hpp:527-667 | over any run each request has been answered exactly once, is on its way, or has met one of the other user's and ended without a word |
| DirectChats.FindRoom | CollabVmServer.hpp:555-562 | a room with the peer is found if there is one |
| DirectChats.ChatTables.NewDirect | CollabVmServer.hpp:527-572 | unknown users, full tables and existing rooms are answered; otherwise a room is opened under the next id and its request is sent |
| DirectChats.ChatTables.OnAsked | CollabVmServer.hpp:572-623 | at the recipient an unlinked room is linked, a linked one is reported, a full table refuses, and otherwise a room is opened |
| DirectChats.ChatTables.OnAnswered | CollabVmServer.hpp:604-655 | back at the sender an unlinked room is linked and announced, a refused one is erased |
| ChatRooms.CollabVmChatRoom.AddUserMessage | CollabVmChatRoom.hpp:32-57 | after any number of messages the ring holds the last hundred, each in the slot of its number, with nothing of an older text left |
| ChatRooms.CollabVmChatRoom.GetChatHistory | CollabVmChatRoom.hpp:68-77 | the history is exactly the last min(n, 100) messages, oldest first |
| ChatRooms.OverwriteOldest | CollabVmChatRoom.hpp:47-56 | overwriting at the cursor forgets the oldest message and keeps the others |
| ChatRooms.CopyStringToTextBuilder | CollabVmChatRoom.hpp:59-66 | the reserved text is the message followed by NULs |
| ChatRooms.PaddedReadsBackIff | CollabVmChatRoom.hpp:59-66 | a stored text read up to its first NUL is the message exactly when the message contains none |
| Totp.GenerateMeetsTheStandard | Totp.hpp:14-36 | the code equals the dynamic truncation of section 5.3 of RFC 4226 for every digest, reads inside the digest, and is below ten to the digits |
| Totp.ReversedBytes | Totp.hpp:33-35 | a little-endian load with its bytes reversed is the big-endian number, sign included |
| Totp.ValidatesExactlyTheWindow | Totp.hpp:38-52 | validation accepts exactly the codes of the current counter of section 4.2 of RFC 6238 and of the window of counters before it |
| Totp.AcceptedThroughoutTheWindow | Totp.hpp:38-52 | a code made at t is accepted at every time from t to t + window * step |
| Totp.CounterRoundTrip | Totp.hpp:21-28 | the bytes that are hashed determine the counter |

## Left out

- Times are whole ticks: milliseconds and the finer ticks of the steady clock are one unit, so that rounding a remaining
  time down to milliseconds is not modelled.
- VmStates.VmState.RemoveUser: the turn queue inside the room is a value; that the code with its positions in the users
  behaves like that value is proved separately in `TurnControllers`.
- GuacamoleHandshake.StopIsNeverLost: the handshake is a state machine on values, not a class, because its steps are the
  single accesses of two threads; one client lifetime is modelled, and the use of the client's memory by libguac is not.
- Recordings.RecordingController.Start: whether a file can be created and what the wall clock says are parameters; write
  errors on an open stream, the clock of the operating system and the names of files are not modelled.
- Recordings.RecordingController.WriteFileHeader: the encoding of the header is a function whose result has a length that
  depends on the size of its table alone, as Cap'n Proto lays it out; building the object is not modelled.
- Recordings.RecordingController.WriteMessage: messages are bytes with the kind the filter looks at; the conversion of
  client input into server instructions, which adds no state, is not modelled.
- StreamFraming.FrameRoundTrip: it is stated for messages with between one segment and the largest number whose sizes fit
  the 32-bit words of the format; larger ones wrap around in the tables, as the code writes them.
- CaptchaVerifiers.CaptchaVerifier.Deliver: the outcome of every operation is a parameter; building URLs and bodies,
  parsing responses, and closing a socket while an operation is under way are not modelled beyond that outcome.
- VmSettings.Database.UpdateVmSettings: a setting is its field and a value; the fields, their defaults and the limits of
  user names and messages come from the collab-vm-common submodule, which is not part of this model, and are parameters.
- SettingsLoader.LoadingSucceedsIff: rows are taken to have ids of known settings; a row with a higher id would be read
  past the end of the list of fields.
- VmLists.VirtualMachinesList.OnAnswer: a last answer after which more machines hold information than have been counted is
  excluded, because the program would write past the end of the list; when this cannot happen is
  `GatherCheck.SizeCheckHoldsIff`.
- VmLists.VirtualMachinesList.OnUpdate: an update for a machine that has been deleted meanwhile, which the program takes
  from the table unchecked, and a removal without exactly one matching entry, which it asserts, are excluded; thumbnails
  and the viewers to whom lists are sent are not modelled.
- VmLists.VirtualMachinesList.RemoveAdminVirtualMachine: a deletion without exactly one entry for administrators, which
  the program asserts, is excluded.
- DirectChats.RunKeepsRooms: room ids do not wrap around after 2^32 rooms, and looking up the recipient's name is part of
  the step that opens the room.
- ChatRooms.CollabVmChatRoom.AddUserMessage: the caller keeps to the length limits, as the server checks before the call.
- Totp.GenerateMeetsTheStandard: the keyed hash is a parameter, and the machine is little-endian.
- Users who join a channel they are already in, and clearing a channel while users are in it: both leave the reference
  counts stale by construction.
- One socket in the queues of two machines: its position is kept in the socket, so one machine is modelled.
- Broadcasts of turns, votes and users: they are computed from the state and change none of it.
- Playback and search of recordings, login, sessions, invites, bans and command execution.
- Web serving, TLS, file serving and uploads; the guacamole protocol's own drawing code.
