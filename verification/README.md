# Elevators, their network, and the library beneath

A Dafny model of the distributed elevator program in `project/elevator`, of three parts of the `wibble`
library it is built on, and of the commit barrier of `ex07`. `dafny verify dfyconfig.toml` checks everything.

**One elevator.** `ElevatorControl` is one pass of the control loop as a function from the state and one
sample of every input to the next state; `ElevatorLoop` is the elevator as a class whose `Step` takes that pass
statement by statement. Runs (`ElevatorRuns`) let a physical car move between two passes, up to one sensor
sample at a time. Proved: safety over all runs with stop presses, commands, failed assertions and restarts; a
bound on the floor changes before a request from inside the car is served, and that it leaves its set only as
the door opens at its floor. `ElevatorStops` says exactly where the car stops: a call ahead of it, in the
direction of the call, is opened the first time that the car is at its floor. Not every hall call is that lucky. A call that leaves its set is reported as served
(`ElevatorReports`), but an idle car that departs from the floor of a call, in its direction, drops and reports
that call without having opened its door. `ElevatorHallCalls` has the input that shows it, and proves that this
is the only way for a call to be dropped unopened. `FloorSets` is the 64-bit word behind the floor sets, which
the other modules treat as sets.

**Many elevators.** `SessionProtocol` is the start-up, barrier and recovery protocol as a transition system over
nodes and packets in flight, with loss, duplication, reordering, crash and restart; `SessionAgreement` holds
what is true in every run, and a run after which a node waits for ever. `SessionProgress` proves that such a
wait is all that can keep a node from connecting, `SessionRecovery` that a restarted node gets back exactly the
last state that the node which answers it has learned.
`SessionManagers` and `GlobalStates` are the classes, `SessionPeers` the ranks that ids are.

**Hall calls.** `Requests` and `RequestQueues` are the deadline queue: a binary heap whose entries are changed
in place and repaired only at the top. `RequestViews` says what such a queue stands for, and the queue is proved
to do what a queue with immediate effect would do. On that simple queue `SchedulerCalls` proves that a call is
lost only by a search that finds no elevator; `SchedulerProgress` says what each report does to each call, and
that a call is finished exactly when its elevator, having announced it, has reported it as served, which a call
dropped unopened is too. `SchedulerChoice` is the choice of an elevator, `SchedulerLoop` the
scheduler's methods, each of them a step of `SchedulerCalls`, and where the commands that they send arrive.
`HallCallChain` joins the ends: what an elevator reports is what its scheduler waits for, and the other way round.

**Commit barrier.** `CommitManager` is the protected object with its queue of open calls, `CommitRounds` any
number of workers in any interleaving.

**Library.** `Calendar`, `CalendarBounds`, `CalendarDurations` and `CalendarEaster` are the Gregorian
arithmetic, all of it proved against the second, or the day, that a date denotes. `WireTypes`, `Serialization`, `Packets`
and `PacketBuffers` are serialization over a universe of types, as functions and as a cursor in a buffer.
`OrderedSets` are the in-place merges of sorted sets, `Base64` the codec of `string.cpp`.

Several properties fail in a corner. There the code is modelled as it is, and the condition under which the
property holds is proved to be exact: hall calls of idle cars (`UnservedExactly`), start-up with lost packets
(`ConnectsIffNotStuck`), calls that nobody answers (`LostIffSearchFailed`), dates of year -1
(`BoundsAreExactIff`, `DurationIsDifferenceIff`, `DurationLaws`, `DurationSigns`; the documentation of `grcal` does
not mention that year), values whose tuple has a narrower field or whose packet has no size in an int
(`FaithfulIffFits`, `PacketRoundTripIff`), timestamps of elevator states (`StateIsSentIff`), Base64 of bytes from
128 on (`RoundTripIff`, `StandardIff`), assertions that fail in the control loop (`FailsExactly`).

Inputs of the model are: sensor, button and stop signals, clock readings, the order in which threads and
processes take their steps, which packets arrive and when, failures of the workers' transactions, and the order
in which an unordered map is traversed.

## Model

| member | source | states |
|---|---|---|
| ElevatorRuns.RunsAreSafe | project/elevator/elevator.cpp:241-433 | From any parked car, in every run with stop presses, commands, failed assertions and restarts, each iteration ends with: motion only in state Normal with the door lamp off, state Stopped exactly while the stop lamp is lit, `lastFloor` in bounds, never up at the top nor down at the bottom, inside requests equal to inside lamps; and the physical car never leaves the shaft |
| ElevatorSafety.IterateSafe | project/elevator/elevator.cpp:265-432 | One iteration keeps all of that, also one that fails an assertion or meets an obstruction |
| ElevatorSafety.InitializeSafe | project/elevator/elevator.cpp:217-263 | Entering the loop establishes it for any position of the lamps |
| ElevatorSafety.InitializeMeaning | project/elevator/elevator.cpp:217-239 | It requests the inside floors that were requested, also by a recovered state, or lit, forgets no hall call, and leaves each lamp lit exactly if the car has the request |
| ElevatorSafety.PressAllMeaning | project/elevator/elevator.cpp:274-292 | Polling the panel in any order lights exactly the pressed buttons, and requests exactly those inside buttons that were dark |
| ElevatorService.InsideRequestsAreServed | project/elevator/elevator.cpp:96-147 | Without stop button and obstruction, while an inside request is pending and up to the iteration that serves it, the car changes floor at most 2 * (max - min) times, whatever else is pressed or commanded |
| ElevatorService.ServePays | project/elevator/elevator.cpp:96-147 | The ranking behind the bound: an iteration takes from the rank of each pending inside request what the car moves |
| ElevatorService.CalmStep | project/elevator/elevator.cpp:89-114 | In such runs the controller's floor and direction keep matching where the car is, and no assertion fails |
| ElevatorService.FirstIterationLocates | project/elevator/elevator.cpp:217-265 | The bound applies from the first iteration of a car put into service at any floor |
| ElevatorService.NeverParked | project/elevator/elevator.cpp:371-397 | With an inside request pending, an iteration in state Normal opens the door or leaves the car moving |
| ElevatorService.IterateDrops | project/elevator/elevator.cpp:371-417 | An inside request leaves the set only in an iteration that ends halted at its floor with the door lamp lit; a hall call only while `lastFloor` is its floor, with the door open or not (see `UnservedExactly`) |
| ElevatorService.FailsExactly | project/elevator/elevator.cpp:323-409 | An iteration fails an assertion if and only if its command is for another elevator or for no existing floor, or the door wait times out away from a floor |
| ElevatorStops.StopsExactly | project/elevator/elevator.cpp:180-194 | In state Normal at a floor, an iteration opens the door if somebody inside wants to get out, the car is called there in its direction, or in the other one with no request further on (for a halted car, at an end floor only); otherwise a moving car keeps moving with its door closed |
| ElevatorStops.CallAheadIsOpened | project/elevator/elevator.cpp:371-385 | Without stop button and obstruction: a call up from above the car, or down from below, is opened the first time that the car is at its floor, whatever happens and whichever way the car goes before |
| ElevatorStops.ClosesExactly | project/elevator/elevator.cpp:398-417 | The open door stays open until an iteration in which an inside button has just been pressed or more than five seconds have passed, and closes then |
| ElevatorStops.StopLampChanges | project/elevator/elevator.cpp:294-296 | The stop lamp changes when the stop button goes down, and not while it is held |
| ElevatorStops.StopAndGoOn | project/elevator/elevator.cpp:298-309 | A moving car that is stopped and released goes on in its direction with all its requests |
| ElevatorReports.ServedReportsAreHonest | project/elevator/elevator.cpp:196-215 | A hall call that leaves its set is reported as served in that iteration, and a call reported as served is gone at its end; whether its door was opened is the matter of the next rows |
| ElevatorReports.PressesAreReported | project/elevator/elevator.cpp:274-292 | However the iteration ends: a dark button of the panel that is pressed is reported once, with its kind and floor; a lit one, or one not pressed, is not |
| ElevatorHallCalls.DroppedUnopenedIff | project/elevator/elevator.cpp:371-417 | An iteration drops a hall call without the door lamp being lit at its floor if and only if, after the arrival at the sensed floor, the car is in state Normal without direction and with a dark door lamp, does not stop, and the call is the one at its floor that the departure selects |
| ElevatorHallCalls.UnservedExactly | project/elevator/elevator.cpp:386-397 | In every run with restarts: a hall call is dropped in an iteration, with the door not open at its floor at any time since it came in, if and only if that iteration departs so and the door was not open there before |
| ElevatorHallCalls.OtherwiseOpened | project/elevator/elevator.cpp:398-417 | A hall call dropped in any other way, also just after the door has closed, has had the door open at its floor while it was pending |
| ElevatorHallCalls.DroppedIsDark | project/elevator/elevator.cpp:196-215 | The lamp of a dropped call goes out in the same iteration |
| ElevatorHallCalls.DroppedIsReported | project/elevator/elevator.cpp:196-215 | A dropped call is reported as served in its direction, also when it came with the same iteration |
| ElevatorHallCalls.IdleCarDropsTheCall | project/elevator/elevator.cpp:180-215 | Any car idle between the end floors, door closed, that is called up from its own floor accepts the call, reports it as served, drops it and drives off upwards, in one iteration and without opening |
| ElevatorHallCalls.CallHereIsDropped | project/elevator/elevator.cpp:386-397 | Such an input: a car idle at floor 2 of 4, called up from floor 2 |
| ElevatorLoop.Elevator.Step | project/elevator/elevator.cpp:265-432 | The loop body, statement by statement, takes the iteration of the model and keeps the safety invariant |
| ElevatorLoop.Elevator.InitializeElevator | project/elevator/elevator.cpp:217-239 | The loop over the floors merges lamps and requests as `Initialize` says |
| ElevatorLoop.Elevator.OptimalDirection | project/elevator/elevator.cpp:116-132 | Counting requests floor by floor decides by the number of requests above and below |
| ElevatorLoop.Elevator.StartElevator | project/elevator/elevator.cpp:100-114 | Setting off changes direction, motor and door lamp as the model says, and nothing else |
| ElevatorLoop.Elevator.ClearDirectionButtonLamp | project/elevator/elevator.cpp:196-215 | Clears the one call that the position and direction of the car select, and reports it if it was there |
| ElevatorLoop.Elevator.HandleButtons | project/elevator/elevator.cpp:274-292 | The loop over the panel is the poll of the model |
| FloorSets.QueriesAreExact | project/elevator/floorset.h:25-60 | `get`, `anyHigher`, `anyLower`, `anyOther` and `hasAny` on a 64-bit word decide the corresponding questions about its floors, for shafts of up to 64 floors, bit 63 included |
| FloorSets.ConsistentExactly | project/elevator/floorset.h:54-56 | `consistent` holds if and only if no bit above the top floor is set |
| FloorSets.FloorsDetermineWord | project/elevator/floorset.h:77-83 | Consistent words with the same floors are equal |
| FloorSets.AdditionalIsDifference | project/elevator/floorset.h:62-67 | `hasAdditional` decides whether the second set has a floor that the first has not |
| FloorSets.UnionFloors | project/elevator/floorset.h:69-75 | The bitwise or stands for the union and keeps consistency |
| FloorSets.FloorSet.Set | project/elevator/floorset.h:30-37 | On any word, adds or removes exactly one floor and answers whether it was there |
| SessionAgreement.SessionsAgree | project/elevator/sessionmanager.cpp:67-146 | In every run with loss, duplication, reordering, crashes and restarts, connected nodes at any two moments hold the same peers; ids are in 0..count-1, and equal exactly for the same address |
| SessionAgreement.EveryIdIsTaken | project/elevator/sessionmanager.cpp:138-145 | When all nodes are connected each id from 0 to count - 1 is somebody's |
| SessionAgreement.BarrierMeansAllKnew | project/elevator/sessionmanager.cpp:86-125 | A node leaves the barrier only after every node has known all peers |
| SessionAgreement.RecoveryKeepsIdentity | project/elevator/sessionmanager.cpp:107-146 | A recovered state carries the id that the node computes, the elevator goes by it, the search for the own id succeeds, and the state map stores under each key the state with that id |
| SessionProgress.ConnectsIffNotStuck | project/elevator/sessionmanager.cpp:67-146 | In every run without a crash so far: some continuation without a crash connects a given node if and only if there is no node past the barrier whose lost Ready it waits for |
| SessionAgreement.StuckForever | project/elevator/sessionmanager.cpp:69-83 | A node that waits for the Ready of a connected node never connects unless one of them crashes, whatever else happens |
| SessionAgreement.StartUpCanHang | project/elevator/sessionmanager.cpp:119-122 | A run of two nodes with one lost packet that gets there |
| SessionRecovery.AnswerIsLastLearned | project/elevator/sessionmanager.cpp:161-205 | In every run: a connected node that answers an Initial sends its asker the last state that it has learned under the asker's id since its own last crash, with all peers; if it has learned none, the peers alone |
| SessionRecovery.AnswerIsTaken | project/elevator/sessionmanager.cpp:86-125 | A starting node that hears an answer knows all peers and is past the barrier; it holds the state, if there is one, as recovered and under its own id, and has recovered nothing otherwise |
| SessionRecovery.RestartRecovers | project/elevator/sessionmanager.cpp:107-146 | Together: until its next crash a restarted node has recovered exactly what the answering node had learned last, and goes by its own id |
| SessionRecovery.StatesAreLearned | project/elevator/globalstate.h:16-20 | In every run the map of a node holds under each id exactly the last state published, heard or recovered since its last crash |
| SessionProtocol.ListenInv | project/elevator/sessionmanager.cpp:86-125 | One packet at a starting node keeps the invariant: phase 1 means all peers known, phase 2 that all nodes had known them |
| SessionProtocol.HelpInv | project/elevator/sessionmanager.cpp:161-208 | A connected node's answer carries the full peer set and, if any, a state of the asker's own id |
| SessionPeers.RanksOrder | project/elevator/sessionmanager.cpp:138-145 | Ranks in a sorted set are in range and order the addresses |
| SessionPeers.RankTaken | project/elevator/sessionmanager.cpp:138-145 | Every rank below the size is that of a peer |
| SessionManagers.SessionManager.InitListen | project/elevator/sessionmanager.cpp:86-125 | One round of the listener is the protocol's step |
| SessionManagers.SessionManager.AssignId | project/elevator/sessionmanager.cpp:135-146 | The walk through the sorted peers finds the rank of the first address of this machine |
| SessionManagers.SessionManager.Help | project/elevator/sessionmanager.cpp:164-205 | The search through the peers and the reply are the protocol's answer |
| GlobalStates.GlobalState.Update | project/elevator/globalstate.h:16-20 | Stores a state under its id, keeping keys equal to ids and the button sets equal to the unions over all elevators |
| GlobalStates.GlobalState.UpdateButtons | project/elevator/globalstate.h:60-67 | The loop rebuilds both unions from scratch, in any order of the map: a floor is in a set if and only if some known elevator has the call |
| GlobalStates.GlobalState.Get | project/elevator/globalstate.h:34-39 | What is found under a key carries it as its id |
| CommitRounds.CommitAgreement | ex07/exercise7.adb:20-52 | For any number of workers and rounds: all workers are told the same about a round, and it is commit exactly when every worker finished the round and none signalled abort in it |
| CommitRounds.NumbersCountCommits | ex07/exercise7.adb:77-121 | At the start of each round a worker's `Num` is `Initial` plus 10 for each committed round |
| CommitRounds.OneRoundApart | ex07/exercise7.adb:20-52 | Workers are never more than one round apart, and some step is always possible |
| CommitRounds.EveryWorkerAdvances | ex07/exercise7.adb:77-121 | After k steps of n workers each of them has decided at least k / 5n - 2 rounds, in any interleaving |
| CommitRounds.StepInv | ex07/exercise7.adb:20-121 | Every step of every worker keeps the invariant of the rounds |
| CommitManager.LastCallReleasesAll | ex07/exercise7.adb:21-42 | The call that completes the queue releases everybody in order of arrival, closes the gate, clears the abort flag, and leaves the decision that the flag dictated |
| CommitManager.EarlierCallWaits | ex07/exercise7.adb:21-42 | Any earlier call waits and changes nothing else |
| CommitManager.TransactionManager.Finished | ex07/exercise7.adb:21-42 | The loop that serves open calls inside one protected action does what the value model says |
| CommitRounds.TransactionWorker.Settle | ex07/exercise7.adb:105-117 | Keeps or takes back the change and starts the next round |
| RequestQueues.RequestQueue.WaitForEarliestDeadline | project/elevator/requestqueue.cpp:17-58 | Terminates; what comes back is due, not done, untweaked, and has the earliest effective deadline of all live requests; nothing comes back only if nothing was due; and the queue then stands for what an immediate queue would hold after the same events |
| RequestQueues.RequestQueue.Clean | project/elevator/requestqueue.cpp:24-42 | The nested cleaning loops terminate with a top that is neither done nor tweaked, and change nothing that the queue stands for |
| RequestQueues.RequestQueue.AckRequest | project/elevator/requestqueue.cpp:71-93 | The pass over the container changes exactly the answered requests, and no stored deadline |
| RequestQueues.RequestQueue.Push | project/elevator/requestqueue.cpp:60-69 | Adds one request, and notifies exactly when it comes before all others |
| RequestViews.AckIsEager | project/elevator/requestqueue.cpp:71-93 | Acknowledging in place does to what the queue stands for what acknowledging at once would do |
| RequestViews.CleanTopIsNext | project/elevator/requestqueue.cpp:44-56 | Since deadlines are only put off, a clean top has the earliest effective deadline of all live requests |
| RequestQueues.AckKeepsSound | project/elevator/requestqueue.cpp:72-90 | With the scheduler's delays and a clock that does not go back, a postponed deadline is never before the stored one |
| Requests.PushHeap | project/elevator/requestqueue.h:83-107 | Sifting up keeps the heap and adds exactly the request |
| Requests.PopHeap | project/elevator/requestqueue.h:83-107 | Sifting down keeps the heap and removes exactly the top |
| Requests.TopIsEarliest | project/elevator/requestqueue.h:73-77 | The top of a heap has the earliest stored deadline |
| SchedulerCalls.CallsAreTracked | project/elevator/scheduler.cpp:95-204 | In every run, also after failed searches: each press of a hall button of this site is in exactly one place, once in the queue, or in the hand of the waiting thread, or finished, or lost |
| SchedulerCalls.LostIffSearchFailed | project/elevator/restartwrapper.h:25-68 | A call is lost if and only if a search made for it found no elevator: the loop that threw starts again, and all other calls stay |
| SchedulerCalls.FinishedMeansServed | project/elevator/requestqueue.cpp:71-93 | A finished call was announced and then reported as served by the elevator it belonged to last, both after its last assignment, for the floor and direction of its press |
| SchedulerProgress.ReportMeans | project/elevator/requestqueue.cpp:71-93 | For every queued request and every report: the announcement of its call, by its elevator, leaves it waiting for 30 seconds; the report of its service, after that, finishes it; any other report leaves it as it was; and it stays the only entry for its call |
| SchedulerProgress.FinishedIff | project/elevator/scheduler.cpp:172-188 | In every run a call is finished if and only if at some time it was queued, announced, with an elevator that then reported its service |
| SchedulerProgress.AnnouncedAndServedIsFinished | project/elevator/scheduler.cpp:172-188 | A queued call that is announced and later reported as served by its elevator, with no time-out taking it out in between, is finished and stays so |
| SchedulerProgress.PressIsQueued | project/elevator/scheduler.cpp:121-138 | A press of this site becomes one request to an optimal elevator, to be answered within 100 milliseconds, or is lost if there is none; a press of another site queues nothing |
| SchedulerCalls.SilenceIsReassigned | project/elevator/scheduler.cpp:95-113 | A call is sent to its elevator four times before it goes to a new choice, which it then does at every try; one announced but not served in time goes to a new choice at once, and keeps the long delay |
| SchedulerCalls.LossMeansSilence | project/elevator/scheduler.cpp:45-93 | When a call was lost, no known elevator had reported within the last 1500 milliseconds |
| SchedulerCalls.NumbersAcked | project/elevator/requestqueue.cpp:78-92 | A report moves requests from the queue to the finished ones and loses none |
| SchedulerChoice.OptimalElevator | project/elevator/scheduler.cpp:45-93 | The running minimum finds a fresh elevator of least penalised distance, or none when there is none |
| SchedulerChoice.ChoiceIsLexicographic | project/elevator/scheduler.cpp:54-89 | Inside the shaft the penalties never mix: fewer doubts (outdated, stopped) come first, then being idle before passing by before busy, then the distance |
| SchedulerChoice.FreshMeansCandidate | project/elevator/scheduler.cpp:46-64 | In a shaft of at most 64 floors the search is empty exactly when no state is fresh |
| SchedulerLoop.Scheduler.SchedStep | project/elevator/scheduler.cpp:140-193 | One report processed is a step of the call model, and the commands sent are those listed, to this site, to the others or to both |
| SchedulerLoop.Scheduler.ResendRequest | project/elevator/scheduler.cpp:95-113 | Resending is a step of the call model, and the command goes to the elevator the request now belongs to |
| SchedulerLoop.Scheduler.HandleButtonPress | project/elevator/scheduler.cpp:121-138 | Every site lights the lamp; only the site of the press gives the call to an optimal elevator and queues it |
| SchedulerLoop.CommandsReachTheirTargets | project/elevator/scheduler.cpp:38-43 | Through the two queues and the receivers' filter, each command arrives at its target once and in order and nowhere else, and one for any elevator arrives at the sender's own alone |
| SchedulerLoop.PressReachesOneElevator | project/tools/main.cpp:160-164 | Of what a press makes a site send, its own elevator gets the lamp command, and the call goes from the site of the press to the chosen elevator and to no other |
| SchedulerLoop.WaitIsTake | project/elevator/scheduler.cpp:195-204 | What waiting returns is a step of the call model that takes the request due first |
| HallCallChain.PressIsSeen | project/elevator/scheduler.cpp:161-171 | A dark hall button that is pressed is reported under the id of its elevator, and the scheduler of that site takes the report for a press of that button |
| HallCallChain.CallIsTaken | project/elevator/elevator.cpp:319-349 | The chosen elevator accepts the call that the site of the press sends it, then has it in the direction of the button with the lamp lit, and has announced it as its request expects |
| HallCallChain.PressLightsLamp | project/elevator/scheduler.cpp:121-128 | At each site the report of a press makes the elevator light the lamp of that button and no other |
| HallCallChain.ServiceDarkensLamp | project/elevator/scheduler.cpp:172-181 | At each site the report of a service makes the elevator switch off that lamp and no other |
| HallCallChain.DropIsSeen | project/elevator/elevator.cpp:371-417 | When an elevator drops a call it sends the report of service that the request of the call waits for |
| Calendar.Normalise | project/wibble/grcal/grcal.cpp:145-189 | Terminates on any six integers with every field in range and the same instant; a datetime in range is left alone |
| Calendar.SameInstant | project/wibble/grcal/grcal.cpp:145-189 | The result is canonical: there is only one datetime in range with an instant |
| Calendar.InstantOrder | project/wibble/grcal/grcal.cpp:57-89 | On datetimes in range the order of the fields is the order of instants, and equal instants are equal datetimes |
| Calendar.NormalN | project/wibble/grcal/grcal.cpp:131-143 | With division that truncates, the low field ends in 0..N-1 and the value of both fields is kept, for every integer |
| Calendar.NormaliseDays | project/wibble/grcal/grcal.cpp:164-180 | Both day loops terminate and keep the day |
| Calendar.InstantInClosedForm | project/wibble/grcal/grcal.cpp:57-89 | The second that any six integers denote is given by a formula without tables: leap years by 4, 100 and 400, the months from March on by (153 m + 2) / 5, 86400 seconds a day |
| CalendarBounds.BoundsAreExactIff | project/wibble/grcal/grcal.cpp:191-207 | A complete datetime agrees with a well-formed partial date exactly when it lies between the bounds, for all datetimes if and only if the partial date is not one of year -1 with a month |
| CalendarBounds.BoundsAreExact | project/wibble/grcal/grcal.cpp:112-120 | Both directions for each single datetime |
| CalendarBounds.UpperBoundFillsIn | project/wibble/grcal/grcal.cpp:191-207 | A datetime in range is the upper bound if and only if it has the highest value in each missing field, leap years included |
| CalendarBounds.UpperBound | project/wibble/grcal/grcal.cpp:191-207 | The copying loop yields the datetime in range one second before the next value of the last given field |
| CalendarBounds.UpperBoundInPlace | project/wibble/grcal/grcal.cpp:209-223 | The in-place loop yields the same |
| CalendarBounds.LowerBound | project/wibble/grcal/grcal.cpp:112-120 | Fills missing fields with their lowest values |
| CalendarDurations.DurationLaws | project/wibble/grcal/grcal.cpp:244-262 | For all complete datetimes: a duration is the negative of the reverse one if and only if both ends or none are of year -1, and durations add up if and only if none of three mixtures with year -1 occurs |
| CalendarDurations.DurationSigns | project/wibble/grcal/grcal.cpp:244-262 | For all complete datetimes: the duration is positive exactly when the end is later field by field, and zero exactly when the ends are equal, if and only if it does not go from year -1 to a datetime of year 0 not later in its year, or to the same fields in year 0 |
| CalendarDurations.DurationIsDifferenceIff | project/wibble/grcal/grcal.cpp:244-262 | A duration is the difference of the instants if and only if the begin is not of year -1, or both are and lie on the same side of the end of February |
| CalendarDurations.SecondsFrom | project/wibble/grcal/grcal.cpp:229-242 | The loops count the seconds from the start of the reference year, whichever it is |
| CalendarDurations.Duration | project/wibble/grcal/grcal.cpp:244-262 | The program computes the duration that the laws are about |
| CalendarEaster.Easter | project/wibble/grcal/grcal.cpp:91-109 | For every year from 0 on: a date from 22 March to 25 April that is a Sunday by the calendar's own day count, in the week after the full moon given by golden number and epact |
| CalendarEaster.EasterIsUnique | project/wibble/grcal/grcal.cpp:91-109 | That rule determines the date |
| CalendarEaster.SundayByParts | project/wibble/grcal/grcal.cpp:57-89 | Which dates of March and April are Sundays, from the leap year rule alone |
| Serialization.ReadBack | project/elevator/internal/serialization.h:117-256 | For every type and value, reading what was written with any suffix gives the value after its conversions, and exactly the suffix |
| Serialization.FaithfulIffFits | project/elevator/internal/serialization.h:117-256 | It gives the value itself if and only if every converted field fits the type it is sent as |
| Serialization.SizeIsLength | project/elevator/internal/serialization.h:138-192 | `size`, with its accumulator over tuples, is the number of bytes written |
| Packets.PacketRoundTripIff | project/elevator/serialization.h:97-130 | `toPacket` makes a packet and `fromPacket` gives the value back if and only if the converted fields fit and the size with its header is that of an int |
| Packets.PackedIff | project/elevator/serialization.h:97-130 | A packet is made if and only if the size with its header is that of an int; it then is the type, the size and the data, in that order |
| Packets.OtherTypeIsRefused | project/elevator/serialization.h:80-88 | A packet of another type, of any size that can be made, is recognised as such |
| Packets.StateIsSentIff | project/elevator/state.h:33-55 | An elevator state survives the network if and only if its timestamp is that of a 32-bit int |
| WireTypes.BytesModulo | project/elevator/internal/serialization.h:118-131 | Writing an integer in w bytes and reading it back is reduction modulo 256 to the w |
| WireTypes.LowByteFirst | project/elevator/internal/serialization.h:121-124 | Byte k of a written integer is its digit k in base 256 |
| PacketBuffers.SerializeAt | project/elevator/internal/serialization.h:121-250 | Writing at a cursor puts the encoding there, moves the cursor past it, and leaves the rest of the buffer |
| PacketBuffers.Deserialize | project/elevator/internal/serialization.h:126-255 | Reading at a cursor gives the decoding, and moves the cursor past what was read |
| PacketBuffers.Pack | project/elevator/serialization.h:97-106 | Computes the size in an int, and fills a fresh buffer of that size with exactly the packet, or makes none |
| PacketBuffers.Unpack | project/elevator/serialization.h:112-117 | Reads header and data as the model says |
| OrderedSets.OrderedSet.IntersectWith | project/wibble/operators.h:143-174 | Leaves exactly the elements that are also in the sorted sequence, in order |
| OrderedSets.OrderedSet.Subtract | project/wibble/operators.h:196-217 | Leaves exactly the elements that are not in the sorted sequence, in order |
| OrderedSets.OrderedSet.SubsetOf | project/wibble/operators.h:224-237 | The two-pointer walk decides inclusion |
| OrderedSets.IncreasingUnique | project/wibble/operators.h:143-217 | The elements determine the sorted set, so the two results above are complete |
| Base64.RoundTripIff | project/wibble/string.cpp:208-282 | Decoding undoes encoding if and only if no second or third byte of a triple is 128 or more, in particular for all strings of 7-bit bytes |
| Base64.StandardIff | project/wibble/string.cpp:197-239 | The encoding is that of section 4 of RFC 4648, character by character, under the same condition and no other |
| Base64.EncodedShape | project/wibble/string.cpp:208-239 | The encoding has 4 * ceil(n / 3) characters, none of them one that decoding reads behind its table for, and ends in exactly (3 - n mod 3) mod 3 pads |
| Base64.DecodedEncoding | project/wibble/string.cpp:241-282 | Which bytes come back, for every string |
| Base64.EncodeBase64 | project/wibble/string.cpp:208-239 | The loops compute that encoding, signed chars included |
| Base64.DecodeBase64 | project/wibble/string.cpp:241-282 | For every string, the loops compute that decoding, and drop one byte for each trailing pad |

## Left out

- Obstruction: `shutdown` clears lamps while the control state stays; a run of the model ends there.
- The `doorOpen` flag: resuming by the stop button clears the lamp and not the flag, so door properties are about the lamp.
- One iteration takes one sample of each sensor and one reading of the clock; the source reads the floor sensor and the clock several times.
- The floor indicator, motor speed, the inertia of the car, Comedi channels, sockets, signals, `fork`, heart beats and thread start-up.
- A bound on how long a hall call waits: inside one elevator it can be dropped unopened (`UnservedExactly`), and the scheduler takes its report for a service.
- Signed overflow of calendar fields, of `Num` in the commit exercise and of penalised distances; integers are unbounded there.
- In-place `lowerbound` of dates and times: it fills other fields than the copying one.
- CalendarDurations.SecondsFrom: does not model month counts above 13, for which the source throws.
- ElevatorReports.ServedReportsAreHonest: says nothing about an iteration that fails an assertion.
- Fairness of the network in start-up: `ConnectsIffNotStuck` is about what can still happen, and after a crash nothing is said about it.
- The session's uninitialised `_id`, packets of unknown type on the service channel beyond being ignored, and addresses shared by two machines.
- Processing of a report between the choice of an elevator and the push in `_resendRequest`, and between the clock reading of an acknowledgement and its lock; both are atomic here, and so is setting a deadline and pushing the request.
- An acknowledgement that arrives while its request is in the hand of the waiting thread is missed, in the source and in the model; the request is then sent again.
- The log, the call numbers and the assignment marks of requests are kept by the model only, to state what has happened.
- PacketBuffers.Deserialize: gives Nothing where the source would read behind the end of its buffer.
- PacketBuffers.Unpack: gives Failed where the source would read outside the packet or its size assertion fails.
- Byte order and widths are those of the little-endian LP64 machines the program was written for; bool, floating-point and pointer-free character types count as integers of their width.
- Set elements are integers in OrderedSets; the operators use only < and == of them.
- Base64.DecodeBase64: for character 123 the source reads one byte behind its table; that byte is a parameter, the same for each such read. Shifts of negative chars are arithmetic, as compilers make them.
- PacketBuffers.Pack: makes no packet also where the source's size, reduced to an int, would come out positive and too small for the data.
- SchedulerLoop.CommandsReachTheirTargets: assumes a network that loses and doubles nothing; what the scheduler does about silence is in SchedulerCalls.
- `ConcurrentQueue`, `HeartBeat`, `RestartWrapper`, logging, MIME, URL and escape functions of `string.cpp`, `ex08` and the other exercises.
