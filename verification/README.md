# robocup2Dsim: the match server's protocol, verified

This project models the stateful parts of the robocup2Dsim server and proves what they are relied upon for. It covers
five areas.

- **The clock monitor** (`Monitor`, `MonitorHistory`, `MonitorRetention`, `MonitorAverages`): a sliding window of pings, a bounded record
  of pongs per client, and averages computed by a one-pass merge of the two. The merge is right only because eviction
  never drops a ping that a retained pong needs; `MonitorRetention` says exactly when that is so, and `Delivery` takes
  it from the server's slots through the queues and the client's answers back into the monitor, with `TwoSlots` for a
  client that has two of them, and `Measurement` starts from accepted registrations.
- **Enrollment and roster** (`Entity`, `Enrollment`, `EnrollmentTable`, `Finalise`, `Roster`): admission, withdrawal,
  flattening a full enrollment into a roster of 22 numbered players, and removals from the roster.
- **The registration protocol** (`Messages`, `Referee`, `ServerState`, `Protocol`, `Answers`, `Filling`,
  `Liveness`, `Slots`, `EndToEnd`): the server forwards
  accepted registrations to a referee that replays them, and trusts the referee's announcement that the roster is
  final. `Protocol` is a state machine over all interleavings of server and referee steps; the queue to the referee
  is lossless, the queue back may lose any message.
- **Batch actions** (`Inventory`, `Action`, `Batch`): a frame's actions spend energy from 8-bit stocks, with clamped
  velocities and rounded proportional costs.
- **Handles** (`ServerHandle`, `ServerLoop`, `ClientState`, `ClientHandle`): the move-only handle that carries every
  queue end, buffer pool and table from one event to the next, and the two loops that dispatch on its label.

Code that changes state is a class with the source's fields and methods; each method's contract ties the new abstract
value to a function of the old one (`Transmit`, `Register`, `Finalised`, `Adjudicate`, `Dispatch`, `ActAll`), and the
results about whole runs are lemmas about those functions. `Protocol` reasons about exactly the two functions that
the classes `Server` and `Referee` are proved to compute (`EndToEnd.LoopIsProtocol`). Besides the lemmas that relate
these functions to each other, each has one that says what it amounts to without them: which request is refused and
what its sender is told (`Enrollment.AnswerIsObjection`, `Answers.ClientsAreTold`), what each action costs and moves
(`Action.RunCosts`, `Action.SymmetricCosts`, `Batch.ImpulsesOfActions`), which name comes first
(`Entity.NameOrderIff`), in which phase a run leaves the server or the client (`ServerState.PhaseOfRun`,
`ClientState.PhaseOfRun`), what the averages add up (`MonitorAverages.AverageRoundTripIsTrips`) and where the clock
value in a pong comes from (`Delivery.PongsCarryClock`).

## Results that a reader may not expect

- Retention of pings can fail for pongs out of order: `MonitorRetention.LatePongLosesItsPing` gives the run.
  `MonitorRetention.TransmitSparesIff` says exactly which pings the next transmit spares, and
  `MonitorRetention.RetentionIff` that over a run every retained pong has its ping at all times if and only if every
  recording passes this test, which can be made before the recording. `InOrder` is a sufficient condition on one
  client alone; the others may send anything.
- A client that registers twice has two slots, and over a run is sent every ping once per slot (`Delivery.PingsSent`).
  The numbers it is sent ascend exactly if it has at most one slot or no ping was due (`Delivery.PingsAscendIff`); when
  nothing is lost the same holds of the pongs recorded for it (`Delivery.PongsAscendIff`), and when nothing is late
  either, of the merge finding the ping of every retained pong (`Delivery.MergeFitsIff`).
  That spoils both averages: `TwoSlots.TwoSlotsSpoilAverage` gives a run without loss or delay whose average round
  trip is 5 where the round trips are 10 and 20, and `Measurement.DoublePlayerIsMismeasured` reaches it from the first
  registration on. A client with at most one accepted registration is measured truly over queues that may lose but not
  reorder, as long as none of its pongs is late (`Measurement.MeasuredFromRegistrations`).
- A client that goes silent after a pong keeps every later ping in the window; once the ping of its first retained pong
  is the first in the window, the window grows with every transmit (`MonitorRetention.SilentClientGrowsWindow`).
- A monitor with a target of 0 can be made, but its first transmit reads the front of an empty window: among runs that
  went well so far, the next transmit does exactly if the target is at least 1 (`MonitorHistory.SafeTransmitIff`).
- The two enrollment maps are inverse to each other exactly in the runs where no client is accepted twice; once they
  are not, no later operation repairs them (`Enrollment.ReachableInverseIff`).
- `is_goalkeeper` of the identifier that stands for no player is true as long as some team has no goalkeeper
  (`Finalise.NoPlayerIsGoalieIff`).
- The roster is announced once, so a server that misses the announcement waits forever
  (`Protocol.LostAnnouncementIsFinal`). That is the only dead end: from every reachable state a match can still come
  about exactly if the announcement has not been lost (`Liveness.MatchCanStartIff`), however many players are
  registered and whichever clients there are to take the free uniforms; once both teams are full at the server and
  nothing is lost, it comes about inevitably (`Liveness.MatchIsInevitable`). The announcement can still get lost
  exactly while the server waits (`Liveness.CanBeLostIff`).
- The player type is never set in an acknowledgement, so a client takes itself for the type it registered as exactly if
  that was not a goalkeeper (`EndToEnd.AcceptedIsAcknowledged`).
- Assigning a handle to itself keeps its pools and tables but loses the ends of its queues
  (`ServerHandle.BasicHandle.Assign`).
- Up to the end of the match only two dispatches can follow a null pointer on the server, and after it all
  registrations and announcements do (`ServerState.SafeIff`, `ServerState.SafeAfterMatchIff`). The protocol rules out
  one of the first two; the other, a registration while playing, remains (`ServerState.RegistrationWhilePlaying`).
- A torso turn moves the body by the requested velocity although only the clamped one is paid for
  (`Batch.ImpulsesWithinLimitsIff`, `Batch.FastTurnIsUncharged`).
- Converting a handle stamps it with the label of the type it came *from* on the server and of the type it goes *to*
  on the client. The server's `ref_crashed` event on a break returns a handle labelled waiting; only the final
  assignment repairs the label (`ServerLoop.Server.DispatchReferee`).

Where code and documentation disagree the code is followed: the difference computed by `average_clock_diff` is
positive when the client's clock is ahead, while a comment at `src/server/event.cxx:293` and the test names at
`test/server/monitor_test.cxx:305-401` take a negative difference to mean that.

## Model

| member | source | states |
|---|---|---|
| Monitor.ClockMonitor.RecordTransmit | src/server/monitor.cxx:120-133 | whenever the eviction stops in time, for any target: records a ping under the next 16-bit number and evicts from the front while the window exceeds the target and no retained pong is as old |
| Monitor.ClockMonitor.RecordReceive | src/server/monitor.cxx:135-149 | appends to this client's record only and keeps at most the target number of pongs, the latest ones |
| Monitor.ClockMonitor.OldestReceive | src/server/monitor.cxx:100-118 | in whatever order the records are walked, returns the one value that is a lower bound of the fronts and is one of them, or 65535 |
| Monitor.OldestIsUnique | src/server/monitor.cxx:100-118 | that value is determined by the records alone, so the walk order cannot matter |
| Monitor.ClockMonitor.AverageRoundTripTime | src/server/monitor.cxx:28-60 | the two-iterator loop computes the truncated mean over the recursive merge, and 0 for no pongs |
| Monitor.ClockMonitor.AverageClockDifference | src/server/monitor.cxx:62-98 | the same for client time minus transmit time minus half the round trip |
| Monitor.ClockMonitor.ReceiveSampleSize | src/server/monitor.cxx:15-26 | the number of pongs retained for the client, 0 for an unknown one |
| MonitorHistory.HistoryRefinement | src/server/monitor.cxx:120-149 | after any run, wrapping included, each record is the last min(target, count) pongs ever recorded for the client, and the window is a suffix of all pings with at least the last min(target, count) |
| MonitorHistory.EvictKeepsSuffix | src/server/monitor.cxx:127-131 | eviction drops a prefix of pings older than every front, and never below the target size |
| MonitorHistory.WindowClosedForm | src/server/monitor.cxx:120-133 | after a transmit the window holds consecutive numbers ending at the current one, from max(old first, min(oldest receive, current - target + 1)) |
| MonitorHistory.WindowIsContiguous | src/server/monitor.cxx:120-133 | up to 65535 transmits the window is contiguous in every run |
| MonitorHistory.SafeTransmitIff | src/server/monitor.cxx:120-133 | after any run that went well, the next transmit does not empty the window exactly if the target is at least 1 |
| MonitorRetention.TransmitSparesIff | src/server/monitor.cxx:120-133 | a ping in the window survives a transmit exactly if it is not older than the oldest receive or is among the last target ones |
| MonitorRetention.TransmitAnswersIff | src/server/monitor.cxx:120-133 | all retained pongs of a client keep their pings over a transmit exactly if each passes that test |
| MonitorRetention.RetentionIff | src/server/monitor.cxx:100-149 | over any run up to 65535 transmits, every retained pong of a client has its ping after every prefix exactly if each transmit passes the test and each of its pongs carries a number of the window |
| MonitorRetention.WindowGrowsIff | src/server/monitor.cxx:120-133 | a transmit makes the window larger, by one, exactly if it is below the target or the oldest receive is no newer than the first ping |
| MonitorRetention.SilentClientGrowsWindow | src/server/monitor.cxx:100-133 | after a client goes silent the window reaches back to the ping of its first retained pong for ever, and once that ping is the first it grows with every transmit, whatever others send |
| MonitorRetention.InOrderIff | src/server/monitor.cxx:135-149 | answering in order is two things: the pongs ever recorded for the client ascend, and none was late |
| MonitorRetention.RetentionSafety | src/server/monitor.cxx:100-149 | if one client's pongs come in order and while their pings are in the window, each retained pong of it has its ping in the window after every step, whatever other clients do |
| MonitorRetention.TransmitRetains | src/server/monitor.cxx:120-133 | a transmit evicts no ping that an in-order client's retained pong answers |
| MonitorRetention.ReceiveRetains | src/server/monitor.cxx:135-149 | an in-order pong keeps the record ascending and covered |
| MonitorRetention.LatePongLosesItsPing | src/server/monitor.cxx:100-133 | a run in which an out-of-order pong outlives its ping |
| MonitorRetention.OldestIsMinimum | src/server/monitor.cxx:100-118 | with records in order, the minimum over all retained pongs of all clients, or 65535 when there are none |
| MonitorAverages.MergeIsCompleteIff | src/server/monitor.cxx:46-57 | the merge matches every pong exactly if the pongs ascend and all their pings are in the window |
| MonitorAverages.MergeIsSound | src/server/monitor.cxx:46-57 | for any input, each merged pair joins a ping and a pong of the same number, in order |
| MonitorAverages.MergeIsLookupIff | src/server/monitor.cxx:46-57 | in any run the merge is the lookup by number in the full history exactly if the retained pongs ascend and have their pings |
| MonitorAverages.MergeIsLookup | src/server/monitor.cxx:46-57 | in an in-order run the merge of the two windows is the lookup by number in the full history |
| MonitorAverages.AverageRoundTripIsMean | src/server/monitor.cxx:28-60 | in an in-order run, the truncated quotient of the sum, over all retained pongs, of receive time minus the transmit time of the ping of the same number, by their number |
| MonitorAverages.AverageRoundTripIsTrips | src/server/monitor.cxx:28-60 | wherever the client's clock stands, the truncated mean of the times its pings took out and back |
| MonitorAverages.AverageClockDiffIsMean | src/server/monitor.cxx:62-98 | the same with client time minus transmit time minus half of receive time minus transmit time, each half truncated |
| MonitorAverages.AverageClockDiffBound | src/server/monitor.cxx:62-98 | with a clock offset d and any times out and back, n times the error is at most the sum of the half trips (indeed of the half asymmetries) plus n - 1, and equal times give d exactly |
| Delivery.PingsPerSlot | src/server/event.cxx:199-224 | one broadcast addresses a client once per slot |
| Delivery.PingsAscendIff | src/server/event.cxx:199-227 | over a run up to 65535 transmits the numbers a client is sent ascend exactly if it has at most one slot or no ping was due |
| Delivery.RepliesFollowPings | src/client/event.cxx:176-202 | a client answers a part of the pings it receives, in their order, each with its number and what the client's clock read when it came |
| Delivery.RepliesAreToBench | src/client/main.cxx:262-280 | in every run the client answers exactly the pings that come while it is on the bench, in order, each with its number and the clock |
| Delivery.AllAnswered | src/client/event.cxx:176-202 | a client that is on the bench for every ping answers each one, with its number and the clock |
| Delivery.PongsCarryClock | src/server/event.cxx:229-241 | whatever is lost, the pongs recorded are a part of the pings the client received, in order, each with what its clock read then |
| Delivery.ClockOfRun | src/server/main.cxx:184-326 | the clock of the server after a run is that of the transmits and receives its dispatches record |
| Delivery.PingsSent | src/server/event.cxx:199-227 | over any run from the final roster on, a client is sent exactly the pings recorded, in order, each once per slot |
| Delivery.PongsAscend | src/server/event.cxx:199-241 | over queues that may lose but not reorder, the pongs recorded for a client with at most one slot ascend |
| Delivery.PongsRecorded | src/server/event.cxx:199-241 | when nothing is lost, the pongs recorded for a client carry the numbers of the pings, in order, each once per slot, and the readings of the client's clock |
| Delivery.PongsAscendIff | src/server/event.cxx:199-241 | when nothing is lost, the pongs recorded for a client ascend exactly if it has at most one slot or no ping was due |
| Delivery.MergeFitsIff | src/server/monitor.cxx:46-57 | when nothing is lost or late, the merge finds the ping of every retained pong exactly if the client has at most one slot or no ping was due |
| Delivery.MeasuredOverFifo | src/server/monitor.cxx:28-98 | hence, when none of its pongs is late, both averages of the server for this client are the true truncated means over its retained pongs, and their client times are readings of its clock |
| TwoSlots.TwoSlotsSpoilAverage | src/server/monitor.cxx:28-98 | from every final roster with two slots for a client, a run without loss or delay after which its pongs do not ascend and its averages are 5 and 2, where the truncated means are 15 and 1 |
| Measurement.MeasuredFromRegistrations | src/server/event.cxx:151-241 | a client with at most one accepted registration is measured truly, from its own clock readings, from the break on, as long as none of its pongs is late |
| Measurement.DoublePlayerIsMismeasured | src/server/event.cxx:151-241 | a run of the whole system in which a client registers twice and, nothing lost or late, the averages for it are not the means |
| Entity.IdRoundTrip | src/common/entity.hpp:166-211 | a player id converts to a uniform and back to itself exactly below 22 |
| Entity.UniformRoundTrip | src/common/entity.hpp:112-164 | every uniform of either team has an id below 22 that converts back to it |
| Entity.IdsInOrder | src/common/entity.hpp:112-211 | ALPHA has the ids 0 to 10 and BETA 11 to 21 in the order of the uniforms, and any other id converts to the last uniform of BETA |
| Entity.NameOrderIsStrict | src/server/roster.hpp:198-198 | any two different team names are in order one way and not the other |
| Entity.NameOrderIsTransitive | src/server/roster.hpp:198-198 | the order of the team names is transitive |
| Entity.NameOrderIff | src/server/roster.hpp:198-198 | one name comes before another exactly if, at the first place where they differ, it ends or has the smaller character |
| Enrollment.AdmissionIff | src/server/roster.cxx:80-126 | a request succeeds exactly for the current version, a known team or fewer than two, a free uniform, and no second goalkeeper |
| Enrollment.AnswerIsObjection | src/server/roster.cxx:80-126 | the answer names the first rule broken: another version than 1.0.0.0, an unknown team beside two, a worn uniform, a second goalkeeper |
| Enrollment.RefusalChangesNothing | src/server/roster.cxx:80-126 | a refused request changes neither map, although a team may be opened before the last two rules |
| Enrollment.FullRefusesAll | src/server/roster.cxx:80-126 | a full enrollment refuses every request |
| Enrollment.FullTeamHasEveryUniform | src/server/roster.cxx:197-205 | a team never exceeds eleven, and has eleven exactly if it has every uniform |
| Enrollment.WithdrawUndoesRegister | src/server/roster.cxx:128-145 | for a client not known yet, deregistering restores both maps except that a team opened by it stays, empty |
| Enrollment.WithdrawalIff | src/server/roster.cxx:128-145 | a withdrawal succeeds exactly for a client with a player entry, and then removes the entry and vacates its slot and nothing else |
| Enrollment.ReachableInv | src/server/roster.cxx:80-145 | every reachable enrollment has at most two teams, one goalkeeper per team, and player entries whose slot holds that same client |
| Enrollment.RegisterKeepsInverseIff | src/server/roster.cxx:116-123 | an accepted registration keeps the two maps inverse exactly if the client was not known |
| Enrollment.WithdrawKeepsInverse | src/server/roster.cxx:128-145 | a withdrawal keeps the two maps inverse |
| Enrollment.SlotWithoutEntryStays | src/server/roster.cxx:80-145 | a slot without its player entry is never repaired |
| Enrollment.ReachableInverseIff | src/server/roster.cxx:80-145 | over whole runs the maps are inverse exactly if no client was accepted twice |
| Enrollment.AcceptedTwice | src/server/roster.cxx:116-123 | a run in which a client accepted under two uniforms leaves a slot without its player entry |
| EnrollmentTable.EnrollmentTable.RegisterClient | src/server/roster.cxx:80-126 | the new maps and the answer are those of the admission rules |
| EnrollmentTable.EnrollmentTable.DeregisterClient | src/server/roster.cxx:128-145 | the new maps and the answer are those of a withdrawal |
| EnrollmentTable.EnrollmentTable.IsFull | src/server/roster.cxx:197-205 | in whatever order the teams are walked, true exactly with two teams of eleven |
| EnrollmentTable.EnrollmentTable.IsClientRegistered | src/server/roster.cxx:186-189 | true exactly if the client has a player entry |
| EnrollmentTable.EnrollmentTable.IsUniformRegistered | src/server/roster.cxx:191-195 | true exactly if the uniform is taken in the team |
| EnrollmentTable.EnrollmentTable.CountGoalies | src/server/roster.cxx:106-110 | positive exactly if the team has a goalkeeper |
| EnrollmentTable.EnrollmentTable.Finalise | src/server/roster.cxx:147-184 | null exactly if the enrollment is not full; otherwise a fresh roster with the flattened contents |
| EnrollmentTable.EnrollmentTable.FillLists | src/server/roster.cxx:156-178 | the loop writes every one of the 22 slots and at most two goalkeeper entries, ALPHA before BETA |
| EnrollmentTable.EnrollmentTable.FinalisePlayer | src/server/roster.cxx:160-168 | writes one slot, and one goalkeeper entry while there is room |
| Finalise.FinalisePreservesMeaning | src/server/roster.cxx:147-184 | the slot of a uniform holds the client enrolled under it, with its goalkeeper status; ALPHA is the name that ends first or has the smaller character where the two differ, BETA the other, and the sheet of each spans its ids |
| Finalise.GoalkeepersPreserved | src/server/roster.hpp:145-148 | for every id below 22, a goalkeeper of the fresh roster exactly if registered as one |
| Finalise.RoomForEveryKeeper | src/server/roster.cxx:163-167 | with one goalkeeper per team the guard on the goalkeeper entries always lets one in |
| Finalise.GoaliesAreKeepers | src/server/roster.cxx:155-178 | the entries collected after n uniforms are, without repetition, exactly the goalkeepers visited |
| Finalise.GoaliesInOrder | src/server/roster.cxx:155-178 | the goalkeepers are collected in the order of the uniforms, ALPHA before BETA |
| Finalise.FinaliseIsInjective | src/server/roster.cxx:147-184 | the roster determines both teams entirely |
| Finalise.FreshGoaliesOccupiedIff | src/server/roster.cxx:155-178 | a fresh roster's goalkeeper entries are vacant or occupied slots exactly if no goalkeeper has the null endpoint |
| Finalise.NoPlayerIsGoalieIff | src/server/roster.hpp:145-148 | the id for no player passes for a goalkeeper exactly if some team has none |
| Filling.KeeperlessRoster | src/server/roster.cxx:155-178 | registrations that fill both teams without a goalkeeper, whose roster takes the id for no player for one |
| Roster.RosterTable.FindClient | src/server/roster.hpp:130-135 | the endpoint in the slot for an id below 22, nothing otherwise |
| Roster.RosterTable.FindPlayer | src/server/roster.hpp:137-143 | the first slot of the endpoint, nothing exactly if it has none |
| Roster.RosterTable.IsGoalkeeper | src/server/roster.hpp:145-148 | whether some goalkeeper entry names the id |
| Roster.RosterTable.GetTeamName | src/server/roster.cxx:69-78 | the first name for ALPHA, the last for BETA |
| Roster.RosterTable.DeregisterClient | src/server/roster.cxx:49-67 | vacates the first slot of the client and the first goalkeeper entry naming it, in place |
| Roster.DeregisterEffect | src/server/roster.cxx:49-67 | one removal vacates one slot of the client, which is no goalkeeper afterwards; everyone else keeps slot and status |
| Roster.DeregisterCount | src/server/roster.cxx:49-67 | a successful removal lowers that endpoint's slots by exactly one and no other's |
| Roster.DeregisterRun | src/server/roster.cxx:49-67 | after any sequence of removals goalkeeper entries are vacant or occupied slots, remaining players keep id and status, and each endpoint lost one slot per call until none was left |
| Referee.Referee.constructor | src/referee/referee.cxx:15-22 | starts with an empty enrollment and nothing else |
| Referee.Referee.Process | src/referee/referee.cxx:24-41 | drains the queue; state and outputs are those of handling each input in turn |
| Referee.Referee.ProcessRegistration | src/referee/referee.cxx:43-62 | registers, and when full announces the roster, keeps it, drops the enrollment and starts the game |
| ServerState.SafeIff | src/server/event.cxx:151-155 | before the match ends only a registration while playing and an announcement for an enrollment that is not full go wrong |
| ServerState.RegistrationWhilePlaying | src/server/event.cxx:366-372 | once the field is open every registration follows a null pointer |
| ServerState.DispatchKeepsConsistent | src/server/main.cxx:192-319 | every safe dispatch but the end of the match keeps enrollment, roster and game in line with the phase |
| ServerState.LifeCycle | src/server/main.cxx:192-319 | up to the first match end the enrollment is present exactly while waiting, the roster exactly afterwards |
| ServerState.PhaseOfRun | src/server/main.cxx:192-238 | up to the first match end the server is playing exactly if the field was opened after the roster was announced, on the break exactly if only the roster was, and waiting otherwise |
| ServerState.SafeAfterMatchIff | src/server/event.cxx:386-396 | after the match the phase is waiting without an enrollment: exactly registrations and announcements go wrong |
| Protocol.ReplicaAgreement | src/referee/referee.cxx:43-62 | in every interleaving nothing follows a null pointer, and replaying what is pending on the referee's enrollment succeeds at each step and gives exactly the server's |
| Protocol.AnnouncedOnceWhenFull | src/referee/referee.cxx:48-61 | at most one announcement, made exactly when the accepted registrations fill both teams and the referee has handled all; its roster is that enrollment's and exactly then its game has started |
| Protocol.RostersAgree | src/server/event.cxx:151-155 | a server that has left the waiting state has the referee's roster, and no second announcement can come |
| Protocol.LostAnnouncementIsFinal | src/server/main.cxx:192-206 | if the announcement is lost the server waits forever |
| Filling.Completion | src/server/roster.cxx:80-126 | every enrollment with at most two teams can be filled by outfield players, one registration for each free uniform, from any supply of clients in the order of the supply |
| Liveness.RefereeAnnounces | src/referee/referee.cxx:43-62 | once the server is full, unless the announcement was lost, the referee makes it after at most as many steps as it has messages pending |
| Liveness.AnnouncementArrives | src/server/event.cxx:151-185 | an announcement on its way takes the server out of waiting with 22 acknowledgements |
| Liveness.AnnouncementCanBeLost | src/server/main.cxx:192-206 | losing it leaves a waiting server that can never leave |
| Liveness.MatchCanStartIff | src/server/main.cxx:192-206 | from every reachable state some continuation, whose senders are the first clients of any given supply in turn, reaches the break before the match exactly if the announcement is not lost |
| Liveness.CanBeLostIff | src/server/main.cxx:192-206 | some continuation from such a supply loses the announcement exactly while the server waits |
| Liveness.MatchIsInevitable | src/server/main.cxx:192-206 | from a full waiting server that has not missed the announcement, every continuation without loss in which the referee takes as many inputs as are pending and the server then takes an output reaches the break |
| Slots.SlotsAreRegistrations | src/server/roster.cxx:80-184 | on the break a client has as many slots of the roster as it had registrations accepted |
| Slots.BreakBegins | src/server/event.cxx:151-185 | the break begins with a clock that has recorded nothing and a slot for each accepted registration |
| Protocol.RegistrationStep | src/server/event.hh:60-134 | a registration at a waiting server follows no null pointer and keeps the agreement, with the enrollment that the admission rules give |
| Answers.RequestIsAnswered | src/server/event.hh:60-134 | at a waiting server a request that breaks no rule is forwarded and not answered; one that breaks a rule is answered with the first one it breaks, to its sender alone, and not forwarded |
| Answers.ClientsAreTold | src/server/event.hh:60-134 | in every interleaving the messages to the clients are exactly the refusals of the requests that broke a rule, in order and each to its sender, and on the break the acknowledgements after them |
| Protocol.AdjudicationStep | src/referee/referee.cxx:24-62 | a step of the referee keeps the agreement, and it never handles a registration without an enrollment |
| Protocol.FinalisedStep | src/server/event.cxx:151-185 | the announcement always finds a full enrollment at the server, which goes on a break and has sent 22 acknowledgements |
| Protocol.AgreementAlways | src/server/event.hh:60-134 | the invariant of the protocol holds after every sequence of steps |
| Protocol.ReplayOnFull | src/server/roster.cxx:80-126 | nothing but rules can be pending on a full enrollment |
| EndToEnd.AcceptedIsAcknowledged | src/server/event.cxx:151-185 | each accepted registration is acknowledged at its player's place, to its client, with its uniform and its team, the two teams being in name order; the client computes the id that the roster uses, and its player type exactly if it is no goalkeeper |
| EndToEnd.AcknowledgedWasAccepted | src/server/event.cxx:155-168 | each of the 22 acknowledgements answers exactly one accepted registration |
| EndToEnd.ReplayedSlots | src/server/roster.cxx:116-123 | the slots of a replayed enrollment are exactly the registrations replayed, each once |
| EndToEnd.LoopIsProtocol | src/server/main.cxx:170-327 | the state that the server's loop reaches and all it sends to referee and clients, the rules of the match first, are those of the server in the protocol |
| ServerHandle.BasicHandle.constructor | src/server/event.cxx:28-56 | a new handle owns the given ends and pools, an empty enrollment and a fresh monitor |
| ServerHandle.BasicHandle.Move | src/server/event.cxx:59-83 | takes every end, pool and table and the label, and leaves the other with none |
| ServerHandle.BasicHandle.Assign | src/server/event.cxx:85-111 | the same into an existing handle; into itself it keeps pools and tables and loses the queue ends |
| ServerHandle.BasicHandle.Convert | src/server/event.hh:154-161 | moves and sets the label to that of the type converted from |
| ServerHandle.BasicHandle.AssignFrom | src/server/event.hh:15-21 | the same with the label set to the state returned |
| ServerHandle.Passed | src/server/event.cxx:187-197 | two conversions keep everything owned and leave the label of the local handle's type |
| ServerHandle.RefSpawned | src/server/event.cxx:121-141 | sends the rules to the referee and changes nothing else |
| ServerHandle.HandleRegistration | src/server/event.hh:60-134 | enrolls; forwards exactly the successes, answers exactly the refusals; the handle owns what it owned |
| ServerHandle.HandleRosterFinalised | src/server/event.cxx:151-185 | the enrollment becomes the roster, one acknowledgement per slot is queued in order, the game starts |
| ServerHandle.SendAcks | src/server/event.cxx:155-181 | queues, slot by slot, the slot's uniform and team to the slot's endpoint |
| ServerHandle.HandlePingTimedOut | src/server/event.cxx:199-227 | records a transmit and queues one ping with its number per slot |
| ServerHandle.HandleReceivedPong | src/server/event.cxx:229-241 | records the pong for its sender |
| ServerLoop.Server.DispatchReferee | src/server/main.cxx:192-238 | the first handler for the label runs; afterwards the live handle owns all it owned, under the label the event returns |
| ServerLoop.Server.DispatchStatus | src/server/main.cxx:239-259 | the same for a client's status |
| ServerLoop.Server.DispatchTransaction | src/server/main.cxx:260-299 | the same for a client's transaction |
| ServerLoop.Server.DispatchTimers | src/server/main.cxx:300-319 | the same for the timers of a frame |
| ServerLoop.Server.Run | src/server/main.cxx:170-327 | over any number of frames of safe dispatches the handle ends with all its original ends and pools, in the state and having sent what the fold of the dispatches gives; up to the first match end it is consistent |
| ServerLoop.FrameInOrder | src/server/main.cxx:184-319 | a frame dispatches exactly what the queues yield, the referee's output before a status, that before a transaction, and the timers last |
| ServerLoop.FrameByFrame | src/server/main.cxx:177-326 | a run is its first frame and then the rest of it, one frame later |
| ServerLoop.DueOncePerPeriod | src/server/main.cxx:303-316 | in the first period a timer is due at its start frame alone, and again after every further period |
| ServerLoop.PingsDuePerRun | src/server/main.cxx:303-306 | over a run the ping timer runs out once for every multiple of the ping frequency among its frames |
| ServerState.RunIsFirstMatch | src/server/main.cxx:184-326 | a run up to the first match end is safe and stays consistent |
| ClientState.LifeCycle | src/client/main.cxx:215-358 | in every run, on the bench and while playing there is a game, and it is that of the last acknowledgement handled, under the id that names this uniform of this team |
| ClientState.PhaseOfRun | src/client/main.cxx:215-341 | in every run the client is playing exactly if it learned on the bench that the field is open and neither a crash nor an end came since, and on the bench exactly if an acknowledgement or a crash put it there and nothing took it away |
| ClientHandle.BasicHandle.Move | src/client/event.cxx:54-74 | takes every end, pool and game and the label, and leaves the other with none |
| ClientHandle.BasicHandle.Assign | src/client/event.cxx:76-97 | the same into an existing handle; into itself it keeps pools and game and loses the queue ends |
| ClientHandle.BasicHandle.Convert | src/client/event.hh:50-57 | moves and sets the label to that of the type converted to |
| ClientHandle.BasicHandle.AssignFrom | src/client/event.hh:13-19 | the same with the label set to the state returned |
| ClientHandle.Spawned | src/client/event.cxx:107-138 | asks once for the team, uniform and kind of player of the configuration, under the current version |
| ClientHandle.RequestIsServed | src/client/event.cxx:107-124 | a client's request is never refused for its version, and if accepted takes the configured team and uniform, as a goalkeeper exactly if configured as one |
| ClientHandle.RegistrationSucceeded | src/client/event.cxx:140-152 | the game is that of the acknowledged uniform, team and player type |
| ClientHandle.ReceivedPing | src/client/event.cxx:176-202 | answers with the ping's number and the client's clock |
| ClientHandle.Client.DispatchBot | src/client/main.cxx:219-261 | the first handler for the label runs; the live handle owns all it owned, under the label the event returns |
| ClientHandle.Client.DispatchStatus | src/client/main.cxx:262-280 | the same for a status, answering exactly the pings received on the bench, with number and clock |
| ClientHandle.Client.DispatchTransaction | src/client/main.cxx:281-341 | the same for a transaction |
| ClientHandle.FrameInOrder | src/client/main.cxx:215-341 | a frame dispatches exactly what the queues yield, the bot's output before a status and that before a transaction |
| ClientHandle.Client.Run | src/client/main.cxx:199-367 | over any number of frames the handle keeps all its ends and pools, in the state and having sent the pongs of the whole history, and one registration request if it began unregistered; on the bench and while playing there is a game |
| Inventory.Inventory.Accrue | src/engine/inventory.hh:28-41 | adds exactly if the sum stays within the maximum, without overflow |
| Inventory.Inventory.Spend | src/engine/inventory.hh:43-56 | subtracts exactly if the rest stays above the minimum, without underflow |
| Inventory.Inventory.AccrueAll | src/engine/inventory.hh:58-73 | element by element, also when the amounts are the stock itself |
| Inventory.Inventory.SpendAll | src/engine/inventory.hh:75-90 | element by element, also when the amounts are the stock itself |
| Inventory.AccrueUndoesSpendIff | src/engine/inventory.hh:28-56 | accruing undoes spending exactly if the stock was within the maximum |
| Inventory.SpendUndoesAccrueIff | src/engine/inventory.hh:28-56 | spending undoes accruing exactly if the stock was not below the minimum |
| Inventory.StockIsAccounted | src/engine/inventory.hh:28-56 | over any sequence of movements a stock is what it was plus the changes allowed; a movement is carried out exactly if it stays on the right side of its limit and otherwise changes nothing; a stock within the policy stays within it |
| Action.CostArithmetic | src/common/action.cxx:20-28 | for every velocity, positive maximum and 8-bit maximum cost: the cost fits, is monotone in the speed, is the maximum cost from the maximum on, and is the integer nearest to the proportional share, a half rounded up |
| Action.RunCostIsDirectional | src/common/action.cxx:46-53 | running costs the proportional share of the limit in its own direction |
| Action.RunCosts | src/common/action.cxx:46-53 | running forward costs the nearest to a 160th of the velocity and 100 from 16000 on, backward the nearest to a 40th and 200 from 8000 on |
| Action.SymmetricCosts | src/common/action.cxx:13-111 | in either direction moving the foot costs the nearest to a 320th and 100 from 32000 on, turning the head a fifth and 20 from 100 on, turning the torso a fifth and 40 from 200 on; a catch is free |
| Batch.ActMoveFoot | src/common/action.cxx:13-37 | spends the clamped cost and, if it was there, pushes the foot along the heading of the torso |
| Batch.ActRun | src/common/action.cxx:39-64 | spends the directional cost and, if it was there, pushes torso, head and foot along the heading of the torso |
| Batch.ActTurnHead | src/common/action.cxx:66-87 | spends the clamped cost and, if it was there, turns the head |
| Batch.ActTurnTorso | src/common/action.cxx:89-111 | spends the clamped cost and, if it was there, turns torso and foot by the requested velocity |
| Batch.ImpulsesOfActions | src/common/action.cxx:29-109 | which parts each action pushes or turns and at what speed, along the heading of the torso and not across it, clamped except for the torso's turn |
| Batch.Act | src/common/action.hh:9-67 | stocks, one answer per action in a cleared list, and impulses are those of taking the actions in order |
| Batch.Projection | src/common/action.hh:19-66 | each player's final stock, answers and impulses are those of its own actions alone, whatever stocks the others have |
| Batch.BatchIsAccounted | src/common/action.hh:19-66 | final stock is initial stock minus the costs of successful actions; an action succeeds exactly if its player exists and it catches or can be afforded above the minimum; impulses are those of the successes |
| Batch.NeverBelowMinimum | src/engine/inventory.hh:43-56 | a batch never takes a stock below the minimum, and leaves one that starts below it alone |
| Batch.ImpulsesWithinLimitsIff | src/common/action.cxx:105-109 | all impulses respect the velocity limits exactly unless the torso turns faster than the maximum |
| Batch.FastTurnIsUncharged | src/common/action.cxx:105-109 | a turn at 201 costs what one at 200 does and turns faster |

## Left out

- `plan_kick_off`, `find_smallest_sample`, `find_most_ahead` and `calc_kick_off_time` (`src/server/event.cxx:243-322`): unfinished in the source, and reached by no dispatch.
- Registration while playing and enrollment after a match: the enrollment is gone by then; the model says that these dispatches go wrong and the runs stop before them.
- MonitorHistory.WindowClosedForm: stated up to 65535 transmits, because the source marks the wrap of its 16-bit numbers as unhandled; the wrap itself is modelled, and MonitorHistory.HistoryRefinement holds across it.
- MonitorHistory.WindowIsContiguous: up to 65535 transmits, for the same reason.
- MonitorRetention.RetentionIff: up to 65535 transmits, for the same reason.
- MonitorAverages.AverageRoundTripIsMean: up to 65535 transmits, for the same reason.
- MonitorAverages.AverageRoundTripIsTrips: up to 65535 transmits, for the same reason.
- MonitorAverages.AverageClockDiffBound: up to 65535 transmits, for the same reason.
- ServerLoop.Server.Run: only for runs whose dispatches follow no null pointer, as ServerState.Safe spells out; the source checks none of them.
- ServerLoop.PingsDuePerRun: for runs in which the 32-bit frame number does not wrap; ServerLoop.FrameInOrder holds across it.
- Pongs out of order: the averages are then those of the pairs the merge finds, divided by all pongs; MonitorAverages.MergeIsLookupIff says exactly when the merge finds all pairs, not when the quotient happens to be the mean without that.
- Unknown values of enumerations on the wire: eleven uniforms, two teams and five actions are assumed.
- Sockets, threads, timers, signals, command line, logging and clocks: times are parameters, and what the two loops take from their queues in a frame is an input; the loops run for as many frames as there are inputs.
- Queue capacity: a sender retries until there is room, so queues are unbounded sequences.
- Box2D and Cap'n Proto: impulses are recorded in a log, messages are datatypes, and a body is the cosine and sine of the angle of its torso.
- The state of the game on the field, the rules of the match and the referee's judgements beyond the roster.
- The source's endpoint library is not part of this model: an endpoint is a 64-bit number.
- Double precision: velocities and costs are real numbers, rounded to integers as the source does.
- Increment and decrement of the roster's iterator: the acknowledgement and ping loops walk the slots in order.
- `ram_db`, `ecs_db`, `primitives`, `resource`, `make_energy`: tables and allocators that would add only easy members.
