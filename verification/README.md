# A verified model of the Dronecode SDK core and the YDLidar driver

The project models the parts of the repository whose behaviour spans many calls: the timer table and
the services built on it, the blocking queue under the worker pool, and the chain that turns the
lidar's bytes into a laser scan. Objects whose methods update fields are Dafny classes, loops over
buffers are loops over arrays, and each method is proved against a function of the old state. The
lemmas then state what the protocol or the pipeline guarantees over whole runs, whole byte streams or
whole revolutions.

**Timers** (`TimeoutHandler.dfy`, `TimerDeadlines.dfy`, `TimerTraces.dfy`, `CallEveryHandler.dfy`). A pass walks a map while the callbacks it
runs add, refresh, change and remove entries of that map. What happens around the k-th callback is a
script of operations that the theorems quantify over. A script may also hold calls of other threads; the
exact results about the expiry pass are for those that read the clock no earlier than the pass, and
`Timers.DueOrLate` is about all of them. The periodic scheduler reads the clock at every entry it visits,
so its theorems quantify over those readings too. Cookies are map keys in any order; the clock counts
nanoseconds and intervals are whole milliseconds.

**Command and parameter services** (`LockedQueue.dfy`, `MavlinkCommands.dfy`, `CommandRuns.dfy`,
`ParamValue.dfy`, `MavlinkParameters.dfy`, `ParameterRuns.dfy`). They are the client side of the MAVLink Command
Protocol, Parameter Protocol and Extended Parameter Protocol services. Every handler is one atomic
step over the real timer table; a run is any sequence of requests, replies, clock ticks, timer
firings and operations of other users of the table, and an event that is not possible does nothing.
A set whose value the protocol cannot carry ends the process when its
turn comes, and so does an extended reply of unknown type that answers a get, as in the code. Theorems about runs start from a fresh service. The history of transmissions and results is a ghost
trace.

**Connection** (`Connection.dfy`, `ConnectionRuns.dfy`). Heartbeats and the hardware identity. Taking the heartbeat
timer out of the table and calling its handler are separate steps, so messages come in between.

**The whole system** (`SystemRuns.dfy`). The two services and the connection over one timer table, as one object runs
them. What each assumes of the other users of the table is proved of the others, so the theorems
about their separate runs hold of the whole. The connection's requests for the identity go through the
command service.

**Queue and pool** (`SafeQueue.dfy`, `ThreadPool.dfy`). A step is a stretch of a thread that holds the mutex;
waiting, notification and spurious wake-ups are explicit.

**Lidar** (`SerialPort.dfy`, `HeaderSearch.dfy`, `Xor.dfy`, `LidarPackage.dfy`, `LidarNodes.dfy`, `LidarWire.dfy`,
`YdlidarDriver.dfy`, `Revolutions.dfy`, `AngleRepair.dfy`, `RepairedAngles.dfy`, `Resampling.dfy`). The serial port delivers its bytes in
arbitrary pieces, and its waits may find nothing or run out. What a byte stream means is defined one whole
package at a time, and the byte loops are proved to compute just that. Packages laid out from measurements
are proved to decode to those measurements. Revolutions, repaired angles and the resampled scan are
functions of the node stream.

**Connection URLs** (`CliArg.dfy`). The parser, its grammar and its round trips.

## Where code and expectation part

- A command that is in progress never times out: its timer is ignored when it fires
  (core/mavlink_commands.cpp:225-228), although the comment at core/mavlink_commands.cpp:197-201
  says the command has that long to complete. `CommandRuns.InProgressWaitsForAck` proves it, and
  `CommandRuns.ProgressThenSilence` is a run that gets there.
- The doubt voiced at core/mavlink_commands.cpp:233-241 is unfounded for atomic handlers: a waiting
  service always has a command queued (`CommandRuns.StateAndTimersAgree`).
- An acknowledgement is matched by command number alone, also while nothing is in flight. A repeated
  acknowledgement can finish an equal command that was never sent. `CommandRuns.AnswersFindSentIff`
  gives the exact condition on whole runs, `CommandRuns.RepeatedAckFinishesUnsentCommand` a run.
- A set of a type the plain protocol cannot carry is accepted and queued, and ends the process when it
  is packed (core/any.h:34-40). An extended reply of unknown type that answers the get in flight fails an
  assertion (core/mavlink_parameters.h:114-118). `ParameterRuns.AbortsIff` says exactly when the process
  ends, `ParameterRuns.UnknownTypeAborts` is a run of three events without any set.
- A reply's name is compared over 17 characters although its field has 16. If those fill the field, what
  follows it in the message decides: `Parameters.FullFieldMatchesIff`.
- Notifications carry a non-zero identity in every run if and only if the system's MAVLink id is not
  zero (`ConnectionRuns.OneIdentityIffSystemIdNonZero`). Id zero is not an input the SDK lets through:
  messages from it are dropped, and the system that stands for it is renamed before it handles any
  (core/dronecode_sdk_impl.cpp:45-66). So `ConnectionRuns.IdentityIsStable` is the result about the code.
- A removal from the periodic scheduler, by a callback or before the pass, breaks the pass off
  (core/call_every_handler.cpp:78-83): later entries are not called in it even if they are due.
  `CallEvery.CallEveryHandler.RunOnce` says behind which entry, and `CallEvery.RemovalLeavesDueUncalled` is
  a pass over two entries in which the second stays due.
- A pass of the periodic scheduler need not end: the clock is read anew at every entry
  (core/call_every_handler.cpp:63-65), so an entry registered by a callback may be due when its turn
  comes, and register the next. `CallEvery.RegisteringNeverEnds` is such a pass. A pass ends if and only
  if its callbacks register finitely many entries (`CallEvery.EndsIffRegistersFew`). A caller can see to
  that by registering nothing from some call on (`CallEvery.NoneNewEnds`) or by setting no interval
  shorter than the time that one visit of each entry and of what they register takes
  (`CallEvery.BriefEnds`). Callbacks that each register the next entry end the pass if and only if some
  entry's interval has not passed when its turn comes (`CallEvery.ChainEndsIff`).
- A lidar header behind other bytes is found if and only if those bytes neither hold a header nor leave
  one begun (`HeaderSearch.HeaderFoundIff`). A single stray synchronisation byte hides it
  (`HeaderSearch.StraySyncByteHidesHeader`), and so does any truncated header.
- Measurements in the last half grid step before the full turn are dropped, although grid angle zero
  is as near (`Resampling.NoBinIff`).
- The second extrapolation loop of the angle repair (src/ydlidar_driver.cpp:689-702) has no effect on
  the result: `AngleRepair.AscendScanData` runs it and still ends in the closed form without it.

## Model

| member | source | states |
|---|---|---|
| Timers.TimeoutHandler.Add | core/timeout_handler.cpp:9-26 | a new entry expires its duration after the clock reading; an entry already under that key is not replaced |
| Timers.TimeoutHandler.Refresh | core/timeout_handler.cpp:28-37 | the deadline restarts from the clock reading if the entry is live, and nothing else changes |
| Timers.TimeoutHandler.Remove | core/timeout_handler.cpp:39-48 | the entry is gone, and a running pass is told so exactly if there was one |
| Timers.TimeoutHandler.RunOnce | core/timeout_handler.cpp:50-83 | terminates whatever the callbacks do to the table; every firing took an entry live and expired at that moment, the table is the replay of those firings, and no entry with a deadline before the pass's clock reading is left |
| Timers.PassFiresExactlyTheDue | core/timeout_handler.cpp:50-83 | any complete pass fires exactly the entries due at entry that no earlier callback of the pass refreshed or removed, each once |
| Timers.DueAfterFirings | core/timeout_handler.cpp:50-83 | in the middle of a pass exactly the entries due at entry are still due that neither fired nor were touched: nothing becomes due during a pass |
| Timers.DueOrLate | core/timeout_handler.cpp:9-26 | with any calls of other threads as well: what is due in the middle of a pass was due at entry or came with a clock reading from before the pass, and what was due at entry and neither fired nor was touched still is |
| TimerDeadlines.AddedFiresIffElapsed | core/timeout_handler.cpp:9-26 | an entry added for so many milliseconds and left alone since is called by a pass if and only if more than that has passed since its registration |
| TimerDeadlines.RefreshedFiresIffElapsed | core/timeout_handler.cpp:28-37 | a refreshed entry left alone since is called by a pass if and only if more than its own duration has passed since the refresh |
| TimerDeadlines.RemovedNeverFires | core/timeout_handler.cpp:39-48 | a removed entry is not called by any pass unless it is added again |
| TimerDeadlines.CallbackFindsItsEntryGone | core/timeout_handler.cpp:63-69 | an entry is erased before its callback runs: the callback may add it again under the same cookie, and cannot refresh it |
| TimerTraces.TraceIsReplay | core/timeout_handler.cpp:50-83 | every interleaving of firings and outside calls on the table is one replay of its firings with timely scripts |
| TimerTraces.CompleteTraceFiresTheDue | core/timeout_handler.cpp:50-83 | an interleaving that leaves nothing due fired exactly the due entries, each once, except those touched first |
| CallEvery.CallEveryHandler.Add | core/call_every_handler.cpp:9-26 | an entry counts its interval from the clock reading of its registration |
| CallEvery.CallEveryHandler.Change | core/call_every_handler.cpp:28-36 | only the interval changes, so the phase of the calls is kept |
| CallEvery.CallEveryHandler.Reset | core/call_every_handler.cpp:38-46 | only the last time changes, to the clock reading |
| CallEvery.CallEveryHandler.Remove | core/call_every_handler.cpp:48-57 | the entry is gone, and a pass is told so exactly if there was one |
| CallEvery.CallEveryHandler.RunOnce | core/call_every_handler.cpp:59-86 | with the clock read at each visit, a pass whose callbacks register finitely many entries ends; an entry nobody touches is visited once if the pass came as far as it and otherwise not, and has the state and the call which the clock at that visit gives it; the pass breaks off behind the first entry around whose call something was removed, behind the first entry after an earlier removal, else runs to the end |
| CallEvery.WalkFollows | core/call_every_handler.cpp:62-76 | after any number of visits, ended or not: an entry that no callback touches was visited once if it lies behind the pass, else not, and called exactly if it was due at its own visit's clock reading |
| CallEvery.CalledIffElapsed | core/call_every_handler.cpp:63-65 | an untouched entry is called if and only if the pass comes as far as it and more than its interval has passed since its last time at its own visit; that time then moves on by one interval |
| CallEvery.BreaksIffRemoved | core/call_every_handler.cpp:62-84 | a pass goes on to the next entry in order and is broken off behind an entry if and only if some removal around its call found its entry, or one came before the pass |
| CallEvery.AddedCounts | core/call_every_handler.cpp:9-26 | after a registration and anything done to other entries, the entry counts its interval from the registration |
| CallEvery.ChangeAndReset | core/call_every_handler.cpp:28-46 | a change of the interval keeps the last time, a reset keeps the interval, whatever is done to other entries afterwards |
| CallEvery.RemovedIsGone | core/call_every_handler.cpp:48-57 | a removed entry stays away unless it is added again |
| CallEvery.EndsIffRegistersFew | core/call_every_handler.cpp:62-84 | a pass ends if and only if its callbacks register finitely many entries |
| CallEvery.VisitsLeft | core/call_every_handler.cpp:62-84 | in no pass do the visits made and the entries still ahead exceed the entries at its start and those registered since |
| CallEvery.NoneNewEnds | core/call_every_handler.cpp:62-84 | callbacks that register nothing from some call on let the pass end, whatever else they do |
| CallEvery.BriefEnds | core/call_every_handler.cpp:62-84 | so do callbacks that set no interval shorter than one visit of each entry and of what they register takes; only the entries of the start are called then |
| CallEvery.ChainEndsIff | core/call_every_handler.cpp:62-84 | if each callback registers one more entry behind all others, the pass ends if and only if some entry's interval has not passed when its turn comes, or something was removed before |
| CallEvery.RegisteringNeverEnds | core/call_every_handler.cpp:63-75 | a pass that never ends: interval zero, a higher address each time, and a clock that moves |
| CallEvery.RemovalLeavesDueUncalled | core/call_every_handler.cpp:78-83 | a pass in which the first callback removes its own entry and the second entry, due and untouched, is not called |
| CallEvery.Rounds | core/system_impl.cpp:284-307 | over any number of passes that end, with anything done by callbacks and by others between the passes: calls, visits and stopping points are those of the passes one after another, and an entry nobody touches has the state and the number of calls that its visits give it, one in every pass which came as far as it; without removals those are all passes |
| CallEvery.SeenInIncreases | core/system_impl.cpp:284-307 | under a clock that never runs backwards the times of an entry's visits increase, over all passes, as the results about one entry ask for |
| CallEvery.NoneNewAllEnd | core/system_impl.cpp:284-307 | passes whose callbacks at some time stop registering all end, however the entries stand |
| CallEvery.BriefAllEnd | core/system_impl.cpp:284-307 | so do passes none of which sets an interval shorter than one visit of each entry and of what they register takes, counting what was registered before |
| CallEvery.NoDrift | core/call_every_handler.cpp:64-65 | after any passes the entry's time is its registration plus one interval for each call |
| CallEvery.OneCallAPass | core/call_every_handler.cpp:63-75 | each pass makes one of the outstanding calls if there is one, and never a call too early |
| CallEvery.OnScheduleIff | core/call_every_handler.cpp:59-86 | every pass leaves exactly the largest k of calls with k intervals strictly inside the elapsed time, if and only if between no two passes more than one call becomes due |
| CallEvery.PeriodicCalls | core/call_every_handler.cpp:59-86 | passes no further apart than the interval keep the entry on that schedule |
| Queues.LockedQueue.PushBack | core/locked_queue.h:14-18 | the item is last, the others keep their order |
| Queues.LockedQueue.BorrowFront | core/locked_queue.h:22-30 | hands out the oldest item and keeps the lock exactly if there is one |
| Queues.LockedQueue.ReturnFront | core/locked_queue.h:34-40 | unlocks, borrowed or not, and keeps the contents |
| Queues.LockedQueue.PopFront | core/locked_queue.h:42-52 | drops exactly the oldest item, if any, and leaves the queue unlocked |
| Commands.MavlinkCommands.QueueCommandAsync | core/mavlink_commands.cpp:98-123 | the command is queued last with three retries of half a second each |
| Commands.MavlinkCommands.DoWork | core/mavlink_commands.cpp:279-312 | an idle service sends its oldest command and arms a timer, or reports a connection error; a busy one does nothing |
| Commands.MavlinkCommands.ReceiveCommandAck | core/mavlink_commands.cpp:125-219 | only an acknowledgement of the oldest command counts: a final result disarms and reports, progress re-arms, an unknown result is dropped |
| Commands.MavlinkCommands.ReceiveTimeout | core/mavlink_commands.cpp:221-277 | a waiting service resends and uses up a retry, or reports a timeout or a failed send; any other state ignores the timer |
| CommandRuns.RunKeepsInv | core/mavlink_commands.cpp:69-312 | the state, queue, timer and history invariant holds after every run |
| CommandRuns.StateAndTimersAgree | core/mavlink_commands.cpp:221-312 | in every reachable state busy means a queued command, idle means no live command timer, waiting means exactly the one the cookie names, in progress at most that one |
| CommandRuns.CompletedThenQueuedIsSubmitted | core/mavlink_commands.cpp:98-312 | the finished commands followed by the queued ones are the submitted ones, in order, and each finished one has one result |
| CommandRuns.OneInFlight | core/mavlink_commands.cpp:279-312 | a command is transmitted, and its result given, only when exactly its predecessors have their results |
| CommandRuns.NeverMoreThanFourSends | core/mavlink_commands.cpp:221-312 | no command is transmitted more than four times in any run |
| CommandRuns.TimedOutMeansFourSends | core/mavlink_commands.cpp:221-277 | a command reported as timed out was transmitted exactly four times, each successfully, and strictly more than two seconds before the report for the first time |
| CommandRuns.QuietWait | core/mavlink_commands.cpp:221-277 | without a matching acknowledgement a waiting command stays in front, waiting, and uses one retry for each firing of its timer, whatever else happens |
| CommandRuns.UnansweredTimesOut | core/mavlink_commands.cpp:221-277 | such a command ends in a timeout on the firing after its last retry: the fourth |
| CommandRuns.InProgressWaitsForAck | core/mavlink_commands.cpp:225-228 | a command in progress is neither resent nor given up until it is acknowledged |
| CommandRuns.ProgressThenSilence | core/mavlink_commands.cpp:190-228 | a run in which a progress report arrives, the timer fires and the command stays in front without a timer or a result |
| CommandRuns.ResultMeansAck | core/mavlink_commands.cpp:125-219 | a success or a denial is reported only by the step that handles an acknowledgement of that command with that result |
| CommandRuns.SubmissionQueues | core/mavlink_commands.cpp:98-123 | in every run a submitted command is queued behind the others with three retries of half a second, and nothing else changes |
| CommandRuns.AttendSends | core/mavlink_commands.cpp:279-312 | in every run an idle service with a command sends the oldest and has exactly one timer, due in half a second, or reports a connection error and drops it; otherwise nothing happens |
| CommandRuns.FinalAckFinishes | core/mavlink_commands.cpp:140-190 | in every run a final acknowledgement of the oldest command gives it its result, success if and only if it was accepted, drops exactly it, and leaves the service idle without a command timer |
| CommandRuns.ProgressAckWaits | core/mavlink_commands.cpp:190-213 | in every run a progress report leaves the command in front, without a result, and one timer due after its remaining retries of half a second |
| CommandRuns.OtherAckIsIgnored | core/mavlink_commands.cpp:125-219 | an acknowledgement of another command, or with an unknown result, changes nothing |
| CommandRuns.FiringResends | core/mavlink_commands.cpp:221-277 | in every run the firing of a waiting command's timer sends it again for one retry with half a second more, or with none left reports the timeout; a failed send is reported, and either drops exactly that command |
| CommandRuns.OthersLeaveTheService | core/mavlink_commands.cpp:225-228 | time, other users of the table and timers that fire while nothing waits leave the service as it is |
| CommandRuns.BusyMeansSent | core/mavlink_commands.cpp:125-219 | as long as no acknowledgement came while nothing was in flight, a busy service has transmitted its oldest command |
| CommandRuns.AnswersUnsentIffPremature | core/mavlink_commands.cpp:125-219 | the next acknowledgement is then taken for a command never sent if and only if nothing is in flight |
| CommandRuns.AnswersFindSentIff | core/mavlink_commands.cpp:125-219 | every acknowledgement a run takes for a command finds it transmitted, if and only if none came while nothing was in flight |
| CommandRuns.RepeatedAckFinishesUnsentCommand | core/mavlink_commands.cpp:125-219 | a run in which a repeated acknowledgement finishes an equal command that was never transmitted |
| CommandRuns.RunIsATrace | core/mavlink_commands.cpp:125-312 | every run of the service and the other users is a trace of timely operations on the timer table |
| CommandRuns.PassOfARun | core/mavlink_commands.cpp:221-312 | a stretch of a run that fires what one expiry pass fires has fired exactly the due entries, each once, except those refreshed or removed first |
| ParamValues.Get128Bytes | core/mavlink_parameters.h:210-238 | a scalar value's bytes replace the start of the buffer and the rest stays; of a custom value the 128 bytes at its stored address fill it |
| ParamValues.PackingRoundTrip | core/mavlink_parameters.h:56-114 | for all ten scalar types and every value, packing into the 128-byte buffer and unpacking by the value's own tag gives the same type and value |
| ParamValues.Packing4RoundTrip | core/mavlink_parameters.h:34-54 | the plain protocol carries a value exactly if it is a float or a signed 32-bit integer, and then unchanged |
| ParamValues.WireBytes | core/mavlink_parameters.h:162-238 | every scalar type has its own tag and width, and its bytes are those of the number, lowest first and negative numbers in two's complement |
| ParamValues.PlainReplies | core/mavlink_parameters.h:34-54 | a plain reply of either 32-bit integer type gives a signed number, of a float its bits, of any other type an empty value |
| ParamValues.LittleEndianRoundTrip | core/mavlink_parameters.h:210-238 | the memory image of a number of a given width determines the number |
| Parameters.SetMessageCarriesTheValue | core/mavlink_parameters.cpp:139-166 | the message sent for a set of a scalar type unpacks, by its own tag, to exactly the value; the message of any set names the parameter exactly if its name has at most sixteen characters and no terminator |
| Parameters.GetMessageNamesTheParameter | core/mavlink_parameters.cpp:195-222 | the message of a get is extended if and only if the request is, and names the parameter exactly if its name has at most sixteen characters and no terminator |
| Parameters.SendableIff | core/mavlink_parameters.h:200-238 | the extended protocol carries everything but an empty value, the plain one floats and signed 32-bit integers |
| Parameters.TerminatedFieldMatchesIff | core/mavlink_parameters.cpp:267 | a reply whose name field is terminated matches exactly the parameter of that name, whatever follows the field |
| Parameters.FullFieldMatchesIff | core/mavlink_parameters.cpp:267 | a reply whose name fills its field, followed by another character, matches exactly the parameter named by all seventeen |
| Parameters.MavlinkParameters.SetParamAsync | core/mavlink_parameters.cpp:30-56 | a name over 17 characters is refused at once, any other set of any value is queued last |
| Parameters.MavlinkParameters.GetParamAsync | core/mavlink_parameters.cpp:68-98 | a cached name is answered at once with the cached value, a long name refused, any other get queued last |
| Parameters.MavlinkParameters.DoWork | core/mavlink_parameters.cpp:115-244 | an idle service sends the oldest set, or without sets the oldest get, and arms a timer; a failed send fails that request, a value that cannot be packed ends the process |
| Parameters.MavlinkParameters.ResetCache | core/mavlink_parameters.cpp:246-249 | the cache is empty, everything else unchanged |
| Parameters.MavlinkParameters.ProcessParamValue | core/mavlink_parameters.cpp:251-307 | a value for the get in flight completes it with that value, for the set in flight with the value set; either is cached, the timer disarmed; other names change nothing |
| Parameters.MavlinkParameters.ProcessParamExtValue | core/mavlink_parameters.cpp:309-366 | the same for gets only: it never completes a set; a value of unknown type for the get in flight ends the process |
| Parameters.MavlinkParameters.ProcessParamExtAck | core/mavlink_parameters.cpp:368-423 | for the set in flight: acceptance caches and completes it, progress restarts its timer, anything else fails it without touching the cache |
| Parameters.MavlinkParameters.ReceiveTimeout | core/mavlink_parameters.cpp:425-466 | the request in flight fails and the service is idle |
| ParameterRuns.RunKeepsInv | core/mavlink_parameters.cpp:30-466 | queues, phase, timer, history and cache agree after every run |
| ParameterRuns.StateAndTimersAgree | core/mavlink_parameters.cpp:115-466 | in every reachable state busy means its own queue is not empty and exactly one timer is live, the one the cookie names, and idle means none is |
| ParameterRuns.AnsweredThenQueuedIsAccepted | core/mavlink_parameters.cpp:30-466 | in each queue the answered requests followed by the queued ones are the accepted ones: each is answered at most once and in order |
| ParameterRuns.OneRequestInFlight | core/mavlink_parameters.cpp:115-466 | a request is sent only while none is in flight, the oldest of its queue, a get only when every accepted set is answered; only the request in flight is answered |
| ParameterRuns.GetAnsweredAtOnceIffConfirmed | core/mavlink_parameters.cpp:68-98 | while the process lives, a get is answered at once with a value if and only if that is the value of the most recent successful set or get of the name since the last reset |
| ParameterRuns.SetIsReadBack | core/mavlink_parameters.cpp:246-423 | after a successful set every get of the name returns that value at once until another completion for the name or a reset |
| ParameterRuns.AbortsIff | core/mavlink_parameters.cpp:143-166 | a step ends the process if and only if the idle service packs its oldest set and the protocol asked for cannot carry the value, or an extended reply of unknown type answers the get in flight (core/mavlink_parameters.h:114-118) |
| ParameterRuns.SendableNeverAborts | core/mavlink_parameters.cpp:143-166 | a process all of whose accepted sets can be sent, and that gets no extended reply of unknown type, never ends so |
| ParameterRuns.UnknownTypeAborts | core/mavlink_parameters.h:114-118 | a run without any set in which such a reply ends the process |
| ParameterRuns.AnswerMeansReply | core/mavlink_parameters.cpp:251-423 | every successful answer is given by the step that handles a message naming the parameter, and a get returns the value that very message carries |
| ParameterRuns.SetIsQueuedIffShort | core/mavlink_parameters.cpp:30-56 | a set is queued last if its name has at most seventeen characters, else refused, and nothing else changes |
| ParameterRuns.GetIsAnsweredQueuedOrRefused | core/mavlink_parameters.cpp:68-98 | a get of a cached name is answered at once, of another short name queued last, of a long one refused, and nothing else changes |
| ParameterRuns.AttendSends | core/mavlink_parameters.cpp:115-244 | in every run an idle service sends its oldest set, or without sets its oldest get, and has exactly one timer, due in half a second; a request that cannot be sent has failed and is dropped; otherwise nothing happens |
| ParameterRuns.ReplyAnswersGet | core/mavlink_parameters.cpp:251-366 | in every run a plain value, or an extended one of known type, that names the get in flight answers it with the value carried, caches it and leaves the service idle without a timer |
| ParameterRuns.ReplyConfirmsSet | core/mavlink_parameters.cpp:284-397 | in every run a plain value or an extended acceptance that names the set in flight reports success, caches the value set and leaves the service idle without a timer |
| ParameterRuns.ConfirmedIsReadBack | core/mavlink_parameters.cpp:385-397 | the next get of that name is answered at once with the value set |
| ParameterRuns.OtherAckFailsSet | core/mavlink_parameters.cpp:398-418 | in every run progress gives the set in flight half a second more, any other extended answer reports failure and leaves the cache |
| ParameterRuns.OtherRepliesAreIgnored | core/mavlink_parameters.cpp:251-423 | a message that does not name the request in flight, or is no answer to its kind, changes nothing |
| ParameterRuns.ResetForgets | core/mavlink_parameters.cpp:246-249 | after a reset every get of a short name is queued again |
| ParameterRuns.TimersLastHalfASecond | core/mavlink_parameters.cpp:168-176 | in every run no parameter timer is due later than half a second from now |
| ParameterRuns.OthersLeaveTheService | core/mavlink_parameters.cpp:425-466 | time, other users of the table and their timers leave the service as it is |
| ParameterRuns.TimerFreesTheService | core/mavlink_parameters.cpp:425-466 | a busy service always has a live timer, and when it fires the request fails, the cache stays and the service is free |
| ParameterRuns.TraceGrows | core/mavlink_parameters.cpp:30-466 | no step takes back an answer or a transmission |
| ParameterRuns.RunIsATrace | core/mavlink_parameters.cpp:115-466 | every run of the service and the other users is a trace of timely operations on the timer table |
| Connection.SystemImpl.ProcessHeartbeat | core/system_impl.cpp:173-198 | an autopilot's heartbeat asks for its identity while that is unknown, by a command queued with the command service; the tenth of another component adopts the sender's id, and every heartbeat keeps a connected system alive |
| Connection.SystemImpl.ProcessAutopilotVersion | core/system_impl.cpp:200-232 | the first identity sticks: the hardware id, or the system id if that is zero; the pending request is forgotten |
| Connection.SystemImpl.RequestAutopilotVersion | core/system_impl.cpp:449-490 | without an identity a request is queued with the command service and stays pending for half a second; with one nothing changes |
| Connection.SystemImpl.SetConnected | core/system_impl.cpp:492-521 | the first time with a known identity announces it and arms the heartbeat timer; later it only refreshes the timer |
| Connection.SystemImpl.HeartbeatsTimedOut | core/system_impl.cpp:523-543 | the system is disconnected and its loss announced under its identity |
| ConnectionRuns.RunKeepsInv | core/system_impl.cpp:173-543 | a connected system has one heartbeat timer, live or being called, due no earlier than three seconds after it was last kept alive, after every run |
| ConnectionRuns.NoticesAlternate | core/system_impl.cpp:492-543 | discovery and loss notifications strictly alternate, discovery first, also with messages handled between taking the timer out and calling its handler |
| ConnectionRuns.LostOnlyAfterSilence | core/system_impl.cpp:278-282 | every second notification is a loss, each with more than three seconds between the last message that kept the system alive before its timer was taken out and the pass's clock reading |
| ConnectionRuns.IdentityIsStable | core/system_impl.cpp:173-232 | with a non-zero system id the identity is known exactly when it is non-zero, and all notifications carry it |
| ConnectionRuns.IdentityIsEstablished | core/system_impl.cpp:187-227 | in every run of a system with an id, its identity and that of every notification is the hardware id of the autopilot's first version message, or the system id if that is zero; or the system id, if ten heartbeats of other components come first |
| ConnectionRuns.MessageConnects | core/system_impl.cpp:492-521 | in every run a heartbeat or version message connects a system exactly if its identity is known, announces it exactly if it was not connected, and gives it three seconds from then |
| ConnectionRuns.HeartbeatAsks | core/system_impl.cpp:449-490 | in every run a heartbeat of an autopilot without known identity makes one request and arms its timer for half a second |
| ConnectionRuns.VersionSettles | core/system_impl.cpp:227-231 | a version message of the autopilot makes the identity known and ends the wait and its timer |
| ConnectionRuns.CallBackDisconnects | core/system_impl.cpp:278-282 | calling the heartbeat timer's handler disconnects the system and announces its loss; calling the version timer's only ends the wait |
| ConnectionRuns.OthersLeaveTheSystem | core/system_impl.cpp:200-205 | time, other users of the table and versions of other components leave the system as it is |
| ConnectionRuns.OneIdentityIffSystemIdNonZero | core/system_impl.cpp:200-232 | in every run all notifications carry one and the same non-zero identity, if and only if the system id is not zero |
| ConnectionRuns.ZeroIdentityIsAnnounced | core/system_impl.cpp:213-228 | with id zero and no hardware id the system is announced under identity zero |
| SystemRuns.RunKeepsInv | core/system_impl.cpp:284-307 | over every interleaving of both services, the connection, other users and time, all three invariants hold and no remembered cookie is another part's live entry |
| SystemRuns.OneTable | core/system_impl.cpp:99-114 | the parts always see one and the same timer table and clock: every call one of them makes on it is one the others allow |
| SystemRuns.PartsAreRuns | core/system_impl.cpp:284-307 | in every run of the whole each part's state is that of one of its own runs, so every theorem about those holds of the whole |
| SystemRuns.RequestsAreSubmitted | core/system_impl.cpp:467-477 | in every run of the whole the requests for the identity are commands of the command service, one for one, besides those of that number that other callers submit |
| BlockingQueue.SafeQueue.Enqueue | core/safe_queue.h:20-25 | the item is last and one blocked thread, if there is one, is woken |
| BlockingQueue.SafeQueue.Dequeue | core/safe_queue.h:27-40 | an attempt gets the oldest item if there is one, else quits after a stop, else blocks the thread |
| BlockingQueue.SafeQueue.Stop | core/safe_queue.h:42-49 | every blocked thread is woken and later attempts on an empty queue quit |
| BlockingQueue.NoLostWakeUp | core/safe_queue.h:20-40 | over every interleaving with spurious wake-ups, while a thread is blocked the queued items never outnumber the woken threads still to come |
| BlockingQueue.HandedOutInOrder | core/safe_queue.h:20-40 | the items handed out, followed by those queued, are those put in |
| BlockingQueue.NobodyBlockedAfterStop | core/safe_queue.h:27-49 | after a stop no thread is blocked, now or later |
| BlockingQueue.DequeueHandsOutTheOldest | core/safe_queue.h:27-40 | with items queued a thread gets the oldest, also after a stop; without any it leaves after a stop and else blocks |
| BlockingQueue.QuitsOnlyWhenEmpty | core/safe_queue.h:27-40 | in every run a thread leaves without an item only when the queue is stopped and every item put in was handed out |
| BlockingQueue.EnqueueWakesOneStopWakesAll | core/safe_queue.h:20-49 | a new item is last and wakes exactly one blocked thread, if there is one; a stop wakes all |
| ThreadPools.ThreadPool.Start | core/thread_pool.cpp:12-22 | as many workers as asked for stand at their loop test |
| ThreadPools.ThreadPool.Enqueue | core/thread_pool.cpp:35-38 | the function is queued last and a blocked worker, if any, woken |
| ThreadPools.ThreadPool.Work | core/thread_pool.cpp:40-48 | one step of a worker: test the flag, attempt to dequeue, or run what it got |
| ThreadPools.ThreadPool.StopQueue | core/thread_pool.cpp:24-26 | the first effect of a stop: the queue is stopped, workers are not yet told |
| ThreadPools.ThreadPool.SetShouldStop | core/thread_pool.cpp:27 | the second effect: workers leave at their next loop test |
| ThreadPools.HandedOutIsRunOnce | core/thread_pool.cpp:40-48 | every function handed out is finished or in the hands of exactly one worker, counted with multiplicity |
| ThreadPools.HandedOutInOrder | core/thread_pool.cpp:35-48 | the functions handed out are the first of those added, in order |
| ThreadPools.StoppedWorkersReturn | core/thread_pool.cpp:24-48 | once the pool is stopped every worker can always go on and has returned after at most three more steps of its own, so joining never waits for a blocked one |
| ThreadPools.WorkersStayUntilStopped | core/thread_pool.cpp:40-48 | in every run a worker has returned only if the pool was told to stop |
| ThreadPools.WorkerTakesAndRuns | core/thread_pool.cpp:40-48 | one step of a worker, from where it stands: it leaves exactly if told to stop, takes exactly the oldest function, and runs what it took |
| ThreadPools.WorkerRunsTheOldest | core/thread_pool.cpp:40-48 | in a pool that is not stopped, a worker at its loop test has run the oldest function after three steps of its own, whatever else goes on that takes nothing from the queue |
| HeaderSearch.HeaderFits | src/ydlidar_driver.cpp:377-460 | what the search finds is a header |
| HeaderSearch.FoundBytes | src/ydlidar_driver.cpp:232-278 | what is found begins with 0xA5 0x5A or 0xAA 0x55, and a package header has one of two types and the check bit in both angles |
| HeaderSearch.FrontIsFound | src/ydlidar_driver.cpp:377-460 | such bytes at the front of a stream are found there, as seven or ten bytes |
| HeaderSearch.HeaderFoundIff | src/ydlidar_driver.cpp:377-460 | behind any bytes a header is found, and found first, if and only if those bytes neither hold a header nor leave one begun |
| HeaderSearch.JunkIsSkipped | src/ydlidar_driver.cpp:377-460 | bytes that leave nothing begun only delay the search, whatever follows |
| HeaderSearch.NoFirstByteLeavesNothing | src/ydlidar_driver.cpp:380-386 | bytes none of which could begin a header leave nothing begun |
| HeaderSearch.TruncatedHeaderHidesHeader | src/ydlidar_driver.cpp:377-460 | behind any truncated header the next header is not found where it ends |
| HeaderSearch.StraySyncByteHidesHeader | src/ydlidar_driver.cpp:387-395 | the shortest such input, and where the search goes on: one stray first synchronisation byte makes it resume behind the header's own first byte |
| HeaderSearch.SyncedNext | src/ydlidar_driver.cpp:377-460 | one more byte keeps the bytes collected and the search for the rest of the stream in step |
| HeaderSearch.EndIsAhead | src/ydlidar_driver.cpp:359-464 | while a header is incomplete the end of the first one in the stream is still ahead, so no reader runs past it |
| Ydlidar.WaitResponseHeader | src/ydlidar_driver.cpp:232-278 | for every chunking it stops at the end of the first response header found and consumes no byte past it; it succeeds if as many waits find something as there are bytes up to that end, and otherwise fails only when no more bytes arrive |
| Ydlidar.YDlidarDriver.HeaderByte | src/ydlidar_driver.cpp:379-458 | one byte of the header: rejected exactly if it does not fit its position, else accounted for in checksum, count, angles and step |
| Ydlidar.YDlidarDriver.ReadHeader | src/ydlidar_driver.cpp:357-464 | for every chunking it stops at the end of the first header of the stream, with exactly that header in the buffer and the fields; it succeeds if as many waits find something as there are bytes up to that end |
| SerialPort.Serial.Receive | src/ydlidar_driver.cpp:240-250 | one round of every read loop: the next bytes of the input, at most as many as are missing, and at least one if the wait finds something |
| Ydlidar.YDlidarDriver.ReadSamples | src/ydlidar_driver.cpp:466-515 | for every chunking exactly the announced bytes are read, stored in order and folded into the checksum; it succeeds if the input holds them and one more wait than there are bytes finds something |
| Ydlidar.YDlidarDriver.ReadPackage | src/ydlidar_driver.cpp:357-527 | for every chunking the next complete package of the stream is read, no byte past it, and the verdict is that of its checksum; it succeeds if more waits find something than there are bytes up to its end |
| Ydlidar.YDlidarDriver.MakeNode | src/ydlidar_driver.cpp:530-568 | the node handed out is that of the current sample of the current package, with quality, corrected angle and distance, or an empty one after a wrong checksum |
| Ydlidar.YDlidarDriver.WaitPackage | src/ydlidar_driver.cpp:344-600 | for every chunking the node handed out is the first of those the rest of the stream stands for, and the others remain; if enough waits find something it succeeds exactly if there is a node to come |
| Ydlidar.YDlidarDriver.WaitScanData | src/ydlidar_driver.cpp:602-626 | a batch is the next nodes of the stream, however the bytes arrive and whatever batches came before; if enough waits find something it succeeds exactly if that many nodes are to come |
| LidarPackage.FoldedInAnyOrder | src/ydlidar_driver.cpp:387-527 | the driver's byte-by-byte folding equals the exclusive or of all 16-bit header and sample words |
| LidarPackage.OneAlteredWordIsRejected | src/ydlidar_driver.cpp:520-527 | altering exactly one checked word of an accepted package, framing intact, makes it rejected |
| LidarPackage.RunningXorIsXorOfWords | src/ydlidar_driver.cpp:484-505 | folding bytes as they come equals folding the words of complete samples, with and without intensities |
| Bitwise.OneChangedWordChangesXor | src/ydlidar_driver.cpp:520-527 | changing exactly one word changes the exclusive or of all words |
| Bitwise.XorDigitwise | src/ydlidar_driver.cpp:484-527 | each binary digit of the exclusive or is one exactly if those of its operands differ |
| LidarWire.StreamShows | src/ydlidar_driver.cpp:344-600 | packages laid out byte by byte from measurements and sent back to back decode, one after another, to exactly their distances and qualities in order, to sync nodes exactly for a ring start, and to the angles between first and last; after a wrong checksum to empty nodes |
| LidarWire.AcceptedIff | src/ydlidar_driver.cpp:520-527 | a package is accepted if and only if its checksum field holds the exclusive or of its other fields |
| LidarWire.EndsAreExact | src/ydlidar_driver.cpp:550-563 | without a correction the first and the last node of an ascending package stand exactly at its first and last angle |
| LidarWire.SpacedLiesWithin | src/ydlidar_driver.cpp:430-448 | the angles of one-sample, ascending and wrapping packages stay within the turn that storing them allows, if no correction exceeds ninety degrees |
| LidarWire.ChecksumFits | src/ydlidar_driver.cpp:450-455 | the right checksum of a package fits its sixteen-bit field |
| LidarNodes.StoredAngleWithinCircle | src/ydlidar_driver.cpp:430-563 | for one-sample, ascending and wrapping packages, every sample and every correction of at most ninety degrees, the stored angle lies within 0 to 360 degrees and keeps its check bit |
| LidarNodes.DecodedWithinCircle | src/ydlidar_driver.cpp:530-568 | every node of a byte stream whose accepted packages have at most one sample, ascend or wrap has its angle within 0 to 360 degrees and its check bit, if no correction exceeds ninety degrees |
| LidarNodes.WireWithinCircle | src/ydlidar_driver.cpp:530-568 | so have the nodes of such packages sent back to back |
| LidarNodes.FramesOfWire | src/ydlidar_driver.cpp:344-600 | the complete packages of what was sent are exactly the packages sent |
| LidarNodes.WireRoundTrip | src/ydlidar_driver.cpp:344-600 | well-formed packages sent back to back decode to exactly their nodes, one a sample in order |
| LidarNodes.FrameAtFront | src/ydlidar_driver.cpp:357-527 | a well-formed package at the front of a stream is the one read next, and all of it |
| LidarNodes.DecodedAnglesFit | src/ydlidar_driver.cpp:550-567 | every node any byte stream decodes to has an angle word of sixteen bits |
| Revolutions.SyncPositionsExact | src/ydlidar_driver.cpp:311-313 | the split points are exactly the sync nodes, in order |
| Revolutions.PublishedRevolutions | src/ydlidar_driver.cpp:311-325 | for every k the k-th published scan is the nodes from the k-th sync node up to the next, cut to the first 2047, and there is one less of them than sync nodes |
| Revolutions.PublishedBetweenSyncBits | src/ydlidar_driver.cpp:311-325 | the k-th scan lies between two nodes with the sync bit, with none in between, and is cut to 2047 nodes |
| Revolutions.ScanCache.CacheNode | src/ydlidar_driver.cpp:311-325 | one more node keeps the array the open revolution, cut, publishes it at a sync node if it began with one, and leaves the write index inside the 2048-slot array |
| Revolutions.ScanCache.CacheBatch | src/ydlidar_driver.cpp:311-326 | a batch only extends the node stream, so the published scans do not depend on the batching |
| Revolutions.ScanCache.Grab | src/ydlidar_driver.cpp:629-650 | the published scan is handed out once, cut to the room the caller has |
| Revolutions.PublishedFromStream | src/ydlidar_driver.cpp:311-325 | a published scan consists of nodes of the stream only |
| Revolutions.CacheScanData | src/ydlidar_driver.cpp:288-342 | from bytes to revolutions: the scans published are the revolutions of the decoded node stream without its first 128 nodes; if enough waits find something, so many batches arrive exactly if the bytes hold their nodes |
| AngleRepair.ExtrapolateBack | src/ydlidar_driver.cpp:670-683 | the front gets the angle of the first measured node less one rounded-up increment a place, not below zero, and only unmeasured nodes change |
| AngleRepair.ExtrapolateForward | src/ydlidar_driver.cpp:689-702 | every node behind the last measured one gets that one's angle and one rounded-down increment a place, within one turn each time; no other node changes |
| AngleRepair.InterpolateAll | src/ydlidar_driver.cpp:704-712 | every unmeasured node behind the front gets the front's angle and its place's increments, within one turn |
| AngleRepair.AscendScanData | src/ydlidar_driver.cpp:665-737 | fails, leaving the buffer untouched, exactly if no node has a distance; otherwise the buffer holds the closed-form repair, rotated at its first drop of more than 180 degrees |
| AngleRepair.RepairKeeps | src/ydlidar_driver.cpp:670-712 | measured nodes do not change at all; the others keep distance, quality and check bit, and the new angle loses nothing in sixteen bits |
| RepairedAngles.FrontIsMeasuredBack | src/ydlidar_driver.cpp:670-683 | the front angle is that of the first measured node less, for each place, the 360 degrees shared out among the nodes and rounded up to whole units, not below zero |
| RepairedAngles.GapsAreFilledEvenly | src/ydlidar_driver.cpp:704-712 | every later unmeasured node has the front's angle and its place's share of the full turn, in whole units and within one turn |
| RepairedAngles.CutAtFirstFall | src/ydlidar_driver.cpp:714-733 | the revolution is cut where the angle first falls by more than 180 degrees, if it does anywhere |
| AngleRepair.RotatedAscendsIff | src/ydlidar_driver.cpp:714-733 | the result ascends if and only if the repaired angles were a rotation of an ascending sequence with a wrap of more than 180 degrees |
| Resampling.SeenAtHeading | src/CYdLidar.cpp:100-105 | turning a reversed lidar by 180 degrees loses nothing when the angle is stored again |
| Resampling.CloserNeighbour | src/CYdLidar.cpp:106-115 | comparing the distances to the two neighbouring grid angles picks the nearest grid angle |
| Resampling.NearestIsWithinHalfAStep | src/CYdLidar.cpp:106-115 | a node lies within half a grid step of the grid angle it is put at |
| Resampling.NoBinIff | src/CYdLidar.cpp:109-115 | a node is put nowhere if and only if its angle is at least half a step short of the full turn or beyond |
| Resampling.LastIsLast | src/CYdLidar.cpp:98-117 | of the nodes nearest to a grid angle the last one is kept |
| Resampling.IndexIsAReflection | src/CYdLidar.cpp:143-147 | the two-branch index reversal is one reflection of the circle and its own inverse, for even and odd grids, so no two grid angles share a position |
| Resampling.CYdLidar.Compensate | src/CYdLidar.cpp:95-117 | the grid holds, at every grid angle, the last measured node nearest to it, or nothing |
| Resampling.CYdLidar.RangeOf | src/CYdLidar.cpp:140-167 | the range is that of the node in metres, or zero outside the limits or inside an ignored range |
| Resampling.CYdLidar.FillScan | src/CYdLidar.cpp:132-174 | every position of the window shows the range and intensity of the one grid angle reflected to it, and nothing beyond the grid |
| Resampling.CYdLidar.Resample | src/CYdLidar.cpp:93-174 | the limits of the window are put in order, and the scan shows the window they name |
| Resampling.CYdLidar.DoProcessSimple | src/CYdLidar.cpp:81-189 | from grabbed nodes to scan: fails exactly if nothing was measured, else shows the repaired and rotated revolution |
| Resampling.PublishedAreWords | src/CYdLidar.cpp:74-82 | whatever scan the driver publishes from whatever bytes meets what the repair and the resampling ask of their input |
| Resampling.MeasurementsSurvive | src/CYdLidar.cpp:81-89 | the repair neither invents nor loses a measured node |
| Resampling.RangeIsMeasured | src/CYdLidar.cpp:93-174 | every non-zero range is within the limits, not ignored, and the distance of an input node within half a grid step of the grid angle its position stands for |
| Resampling.NearestNodeIsShown | src/CYdLidar.cpp:93-174 | conversely the last node nearest to a grid angle is shown at that angle's position, if within the limits and not ignored |
| Resampling.GoesToIff | src/CYdLidar.cpp:98-117 | a node goes to a grid angle if and only if it has a distance and its direction, in steps, rounds to that angle's number below the grid's size |
| Resampling.MeasurementIsShown | src/CYdLidar.cpp:93-174 | the last node of a grid angle is shown at the mirrored position of the window with a four-thousandth of its distance as range and a quarter of its quality as intensity; the range is zero exactly outside the limits or in an ignored range of clockwise angles |
| Resampling.WindowIs | src/CYdLidar.cpp:121-130 | the window has a position for every whole step it spans and starts at the step of its whole start degree |
| ConnectionUrl.CliArg.ParseUri | core/cli_arg.cpp:18-42 | whatever was parsed before, outcome and all four fields are those of the URL |
| ConnectionUrl.CliArg.FindProtocol | core/cli_arg.cpp:44-67 | the scheme in front decides the protocol and is cut off |
| ConnectionUrl.CliArg.FindPath | core/cli_arg.cpp:69-116 | the path reaches to the first colon, and a serial one must be absolute or COM and digits |
| ConnectionUrl.CliArg.FindPort | core/cli_arg.cpp:118-142 | no digits are port zero, a number up to 65535 is the port, anything else leaves port zero |
| ConnectionUrl.CliArg.FindBaudrate | core/cli_arg.cpp:144-160 | no digits are rate zero, a number that fits an int is the rate |
| ConnectionUrl.UrlIsParsed | core/cli_arg.cpp:18-160 | every URL of the grammar is accepted with exactly its parts |
| ConnectionUrl.AcceptedIffUrl | core/cli_arg.cpp:18-160 | and nothing else is accepted |
| ConnectionUrl.SocketRoundTrip | core/cli_arg.cpp:18-142 | for every UDP or TCP host without a colon and every port up to 65535, parsing the printed URL returns exactly those fields |
| ConnectionUrl.SerialRoundTrip | core/cli_arg.cpp:18-160 | for every valid serial path without a colon and every rate that fits an int, parsing the printed URL returns exactly those fields |
| ConnectionUrl.FieldsInRange | core/cli_arg.cpp:10-160 | whatever is parsed, the port is at most 65535 and non-zero only for an accepted UDP or TCP URL |
| ConnectionUrl.PrintedNumbers | core/cli_arg.cpp:18-160 | behind each of the three schemes a printed number is accepted up to 65535 as a port and up to what fits an int as a rate, raises an exception beyond that, and sets exactly its own field |
| ConnectionUrl.SerialPaths | core/cli_arg.cpp:69-116 | a serial path without a rate is accepted if and only if it starts with a slash or is COM and digits; of a rejected one at most the bare COM is kept |
| ConnectionUrl.InBaseTen | core/cli_arg.cpp:118-160 | numbers are read in base ten |

## Left out

- Sockets, serial I/O errors, logging, plugins' enable and disable, process control and the generated services: a send or a wait for data is a parameter that says whether it succeeds.
- The MAVLink codec: messages are records of the fields the handlers read.
- Lock interleavings inside a handler of the command and parameter services: each handler is atomic. The connection splits taking a timer out from calling its handler, the blocking queue is split at every wait.
- Timer entries with an empty callback: the pass neither erases nor skips an expired one, so it would not end.
- Reuse of heap addresses as cookies in the services: a cookie is handed out once. The timer table itself allows any cookie.
- Negative durations and intervals, and intervals that are not whole milliseconds: the scheduler would drift by what the conversion at core/global_include.cpp:42-45 truncates.
- Timers.TimeoutHandler.RunOnce: entries of other threads that read the clock before the pass and come during it (core/timeout_handler.cpp:13 against 19): they may be left due. `Timers.DueOrLate` bounds what is.
- CallEvery.CallEveryHandler.RunOnce: passes that never end; `CallEvery.EndsIffRegistersFew` says which those are, and `CallEvery.WalkFollows` holds of every stretch of them.
- Parameters.SetMessageCarriesTheValue: the contents of the custom 128-byte parameter type. `Any` stores such an array as its address (core/any.h:14-21), and a received one is a local variable (core/mavlink_parameters.h:109-113), so what is sent depends on the memory there.
- Builds without assertions: an empty value sent by the extended protocol, and an extended reply of unknown type, fail one, which the model takes to end the process. Without assertions the first is sent under a wrong type and the second is answered and cached as an empty value.
- Requests issued by the callbacks of the parameter service. An answer is given while the queue of its request is still borrowed (core/mavlink_parameters.cpp:265-278 and 170-174), so an uncached get from a get's answer and a set from a set's answer would wait for the lock that its own thread holds; a set from a get's answer and a get from a set's would not.
- A system without an id and without components drops the commands it is asked to send (core/system_impl.cpp:892-897): the sender of a message is added as a component before the message is handled (core/dronecode_sdk_impl.cpp:68-82).
- The fallback to the system id that a compile-time switch adds at core/system_impl.cpp:456-466, and the renaming of the null system, which happens before it handles a message.
- The blocking forms of the requests, which wait on a promise for the callback of the queued form.
- Joining and erasing the worker threads: `ThreadPools.StoppedWorkersReturn` is why every join returns.
- Restarting a stopped pool: the queue keeps its exit flag, so its workers would spin; and empty functions put into the pool.
- Floating-point rounding: degrees, steps and ranges are reals, so comparisons at the edge of a grid step are exact here.
- The trigonometry of the distance correction: any function of the distance, bounded by ninety degrees where the angle bound needs it.
- LidarNodes.DecodedWithinCircle: packages that neither ascend nor wrap reuse an older step, which nothing bounds.
- Time stamps of nodes and scans, and the scan's configuration block, in which src/CYdLidar.cpp:183 overwrites the minimum angle with the minimum range.
- Batches that fail or time out in the scan thread: a failed batch ends the model's thread, and after a timeout the code processes the old batch again.
- Ignored ranges come in pairs: an odd number of limits makes the code read past the end.
- Deadlines of the blocking reads: a wait of the model times out when its arrivals have run out, whenever that is.
- Device settings, health and info requests, motor control and the channel allocator: bounded look-ups without an invariant.
