# minihil: the relay daemon and its desktop client, verified

This project models minihild, the daemon that drives an eight-channel relay board, together with the desktop client's half
of its wire protocol, and proves properties of whole runs. `dafny verify dfyconfig.toml` checks all of it.

What is modelled, from the bottom up:

- **One channel** (`Relay`, `Blink`, `BlinkWrap`). A relay is in TOGGLE, TIMER, PULSE or BLINK mode. Four commands and a
  periodic tick change its record. Time is a steady-clock reading in integer nanoseconds; elapsed milliseconds are
  truncated, then cast to 64 bits (timer, pulse) or to 32 bits (blink), as in the code. The sleep of the tick loop is no
  upper bound on the gap between ticks: such a bound `d` is a hypothesis of the theorems that need one.
- **The controller** (`Board`, `StatusQuery`, `Controller`). Eight records behind one mutex, so that a run is a sequence of critical
  sections. `Board` says what a run does to the records and which physical writes it makes; the class
  `BaseRelayController`, with the source's in-place updates, tick loop and early exits, is proved to do exactly that.
- **The board** (`Hardware`). The channel-to-pin map, the active-low writes, writes that fail.
- **The wire** (`Framing`, the transport half of `Client`). Newline framing on both ends, over arbitrary chunks and partial
  writes.
- **The protocol** (`Json`, `Router`, `Handling`, `Dispatch`, the rest of `Client`, `Calls`). JSON-RPC dispatch with its
  six handlers, errors and batches; what each request gets, told from its fields; the client's requests and the relay-state
  signals it emits.
- **A connection** (`Connection`). A handler thread byte for byte, from what it receives through the router and the
  controller to what it writes back, and a client's whole conversation with it.
- **The system** (`Protocol`). One client, its two in-order streams and everything else that happens to the controller, as
  interleaved steps.
- **The threads** (`ServerLifecycle`, `ClientLifecycle`). Listener, handlers and `stop`; read threads and
  `requestDisconnect`. Every interleaving of their atomic pieces is an execution.

`Machine` and `Segments` hold what these share about runs, logs and sequences put end to end.

The JSON library is a parameter (`Json.Library`). What a theorem needs of it is in its `requires`: values of the very type
asked for read back (`ReadsBack`), iteration over an object visits its own keys (`VisitsOwn`), each once (`VisitsAll`), and
each message that is actually sent is printed as one non-empty line that parses to it (`PrintsAsLine`; section 7 of RFC
8259). The last is asked only of the messages at hand: a value with a key `OTHER("id")` prints like one with the key `ID`
and parses to the latter. `OwnTexts` says that the error texts are the daemon's own, which `Json.Text` writes out.

## What the code does not do

Some claims hold of the code only under a condition. The condition is proved exact.

- A blink compares its elapsed time on 32 bits. The ticks of the loop come at least its sleep of 10 ms apart; let them come
  at most `d` ns apart. The comparison is then the true one at every tick of every run if and only if the blink is
  `Blink.PacedSafe` (`BlinkWrap.WrapConditionExact`): `d` is less than the sleep, so that there is no second tick; or the ON
  phase is 0 ms or on + d at most 2^32 ms, and the OFF phase too, or else is at most 10 ms with d below 2^32 ms, or at most
  4,294,967,290 ms with ticks exactly 10 ms apart. Otherwise `BlinkWrap.DueTickIgnored` gives the schedule of the loop on
  which a phase's end is missed, and `BlinkWrap.LateTickIgnored` says how any schedule comes to that. Timers and pulses have
  no such limit.
- A physical write that fails is not repeated, and the stored state changes all the same. A pin agrees with its channel's
  stored state if and only if the number of the channel's latest writes that failed in a row is even
  (`Hardware.PinAgreement`; `Hardware.FailedWriteShows` is the smallest case).
- Section 6 of JSON-RPC 2.0: a batch does what its elements do when sent one by one if and only if no element is itself an
  array (`Router.BatchEqualsSequence`): an array inside a batch is an invalid request, alone it is a batch
  (`Router.NestedBatch`).

In three points the code differs from what is written about it, and the model follows the code. A request without `id` is
not a notification (section 4.1 of JSON-RPC 2.0): it is carried out and answered with id null. Both of the repository's
descriptions limit a pulse to 100,000 ms; the daemon accepts any 32-bit duration. They also say that switching modes turns the relay
off on the server first; the daemon leaves that to its clients: a start command on a relay that is on makes no write at all (`Board.BlinkOnBoard`, `Board.TimerOnBoard`).

## Model

| member | source | states |
|---|---|---|
| Relay.CoherentAlways | sw/minihil/src/core/base_relay_controller.cc:28-186 | On every run of one channel: active iff the mode is not TOGGLE, a timer or pulse is ON, a blink shows its phase. |
| Relay.InactiveStays | sw/minihil/src/core/base_relay_controller.cc:149-150 | No tick of any schedule changes or writes an inactive relay, be it ON or OFF. |
| Relay.TicksKeepMode | sw/minihil/src/core/base_relay_controller.cc:149-186 | Ticks never move an active relay to another mode; one that they end is in TOGGLE. |
| Relay.TickAtDeadline | sw/minihil/src/core/base_relay_controller.cc:152-159 | Millisecond truncation and the 64-bit cast do not move the deadline: a tick ends a timer or pulse iff it is at or after start + duration. |
| Relay.TimerWindow | sw/minihil/src/core/base_relay_controller.cc:152-159 | Over any schedule a timer or pulse is untouched while all ticks are before the deadline, and OFF, inactive, in TOGGLE from the first that is not. |
| Relay.TimerWritesOnce | sw/minihil/src/core/base_relay_controller.cc:152-159 | Its ticks make exactly one write, the OFF at the end. |
| Relay.TimerNotLate | sw/minihil/src/core/base_relay_controller.cc:139-159 | The tick that ends it comes at most one tick gap after the deadline, and strictly less if the duration is not 0. |
| Relay.DeadlineOfCommand | sw/minihil/src/core/base_relay_controller.cc:54-78 | Neither the conversion of seconds nor any cast loses anything: the deadline is the start plus the requested time. |
| Relay.TimerFrom | sw/minihil/src/core/base_relay_controller.cc:54-78 | From the command on: ON and active exactly while every tick has been before the requested time, then one OFF write. |
| Relay.CommandForgetsPast | sw/minihil/src/core/base_relay_controller.cc:28-94 | A command replaces what a channel was doing: two channels with different pasts show the same state, mode and activity ever after. |
| Relay.RemainingAgreesWithTick | sw/minihil/src/core/base_relay_controller.cc:107-124 | The reported remaining time is 0 iff a tick now would switch off, never grows, never exceeds the request, and no subtraction wraps. |
| Relay.RemainingIsTimeLeft | sw/minihil/src/core/base_relay_controller.cc:107-124 | The reported remaining time is the true time to the deadline rounded up to a millisecond. |
| Relay.StatusFollowsRun | sw/minihil/src/core/base_relay_controller.cc:107-159 | Along a whole timer or pulse, queries at any times among any ticks report one non-increasing countdown that agrees with the ticks. |
| Relay.TicksAreEvents | sw/minihil/src/core/base_relay_controller.cc:146-186 | The states and writes of a tick schedule are those of a run whose events are these ticks. |
| Blink.OneTick | sw/minihil/src/core/base_relay_controller.cc:160-183 | From any point of a blink, a tick makes at most one phase change, exactly when the truncated comparison says so, and writes the relay iff that is not the last. |
| Blink.BlinkProgress | sw/minihil/src/core/base_relay_controller.cc:160-183 | After q phase changes of a blink of n cycles: count left plus completed cycles is n, the phase is q's parity, state is phase; over exactly at q = 2n, never for n = 0. |
| Blink.BlinkActive | sw/minihil/src/core/base_relay_controller.cc:169-178 | A blink is active iff its count was 0 or fewer than 2n phase changes have happened. |
| Blink.EdgesArePhaseEnds | sw/minihil/src/core/base_relay_controller.cc:160-183 | The times at which the record flips are those of an independent definition from the schedule alone: the first tick far enough from the previous end. |
| Blink.BlinkMeasure | sw/minihil/src/core/base_relay_controller.cc:160-183 | The measure 2*count (less 1 in the OFF phase) plus the phase changes so far is always 2n; n cycles take at least 2n ticks; count 0 stays active for ever. |
| Blink.BlinkEdgeTimes | sw/minihil/src/core/base_relay_controller.cc:160-183 | The q-th phase change is never before the sum of the first q phases, on any schedule; on a dependable schedule with ticks at most d apart it is at most q gaps d after it. |
| Blink.EdgeHasHappened | sw/minihil/src/core/base_relay_controller.cc:160-183 | Once the clock has passed the latest time allowed for the q-th phase change, it has happened. |
| Blink.TruncationHarmless | sw/minihil/src/core/base_relay_controller.cc:161-169 | On a dependable schedule (wrap-safe phases, or ticks of the loop and a paced-safe blink) the comparison on 32 bits equals the untruncated one at every tick of every run. |
| BlinkWrap.LateTickIgnored | sw/minihil/src/core/base_relay_controller.cc:161-169 | On any schedule: if all ticks of a running phase but the last fall inside it, and the last 2^32 ms and less than its length after its beginning, the end of the phase is missed. |
| BlinkWrap.DueTickIgnored | sw/minihil/src/core/base_relay_controller.cc:139-169 | For every blink that is not paced-safe there is a schedule of the tick loop, gaps between its 10 ms sleep and d, on which a due tick is ignored. |
| BlinkWrap.WrapConditionExact | sw/minihil/src/core/base_relay_controller.cc:139-169 | On every schedule of the tick loop (gaps at least its sleep, at most d) the 32-bit comparison is true at every tick, if and only if the blink is paced-safe. |
| Blink.BlinkWrites | sw/minihil/src/core/base_relay_controller.cc:160-194 | The ticks of a blink write OFF, ON, OFF, ..., one write at each phase change and none at the last. |
| Blink.BlinkCompletes | sw/minihil/src/core/base_relay_controller.cc:160-194 | A finished blink of n cycles wrote OFF n times and ON n-1 times after its start; it is OFF, inactive and in TOGGLE. |
| Blink.BlinkDuration | sw/minihil/src/core/base_relay_controller.cc:160-183 | It ends between n*(on+off) and n*(on+off) + 2*n*d after its start. |
| Blink.BlinkOverBy | sw/minihil/src/core/base_relay_controller.cc:160-183 | Once the clock has passed the upper bound the blink has finished, with its n OFF writes. |
| Board.RunDecomposes | sw/minihil/src/core/base_relay_controller.cc:146-194 | On any run of commands and tick loops, a channel ends in the state of a one-channel machine fed only its commands and the same ticks. |
| Board.WritesDecompose | sw/minihil/src/core/base_relay_controller.cc:146-194 | And the physical writes to it are exactly that machine's, in order. |
| Board.CoherentOnEveryRun | sw/minihil/src/core/base_relay_controller.cc:28-186 | The supporting invariant holds of every channel on every run from power-up. |
| Board.WritesAlternate | sw/minihil/src/core/base_relay_controller.cc:188-194 | The writes to a channel alternate, beginning with ON, and their number's parity is the stored state. |
| Board.Unsuperseded | sw/minihil/src/core/base_relay_controller.cc:54-186 | After a command, and no other on that channel, its state and writes are those of the ticks alone, whatever the other channels are told. |
| Board.ToggleOnBoard | sw/minihil/src/core/base_relay_controller.cc:28-37 | A relay switched by set_relay keeps that state, inactive and in TOGGLE, through all ticks and all commands to other channels; the only write is the command's, if the state changed. |
| Board.InactiveOnBoard | sw/minihil/src/core/base_relay_controller.cc:146-150 | An inactive channel without commands keeps its record and is never written, on any run. |
| Board.ModeFollowsCommand | sw/minihil/src/core/base_relay_controller.cc:28-94 | After a command its channel is in that command's mode while active, then in TOGGLE. |
| Board.BlinkOnBoard | sw/minihil/src/core/base_relay_controller.cc:80-194 | A blink of n cycles on the full board: finished once its time is over, having written OFF exactly n times and ON n times (n-1 if the relay was on). |
| Board.TimerOnBoard | sw/minihil/src/core/base_relay_controller.cc:54-78 | A timer or pulse on the full board: ON until the first tick at or after its deadline, and the exact writes of the channel. |
| Board.LaterCommandReplaces | sw/minihil/src/core/base_relay_controller.cc:28-94 | Whatever happened on a channel before a command is irrelevant after it, whatever follows. |
| Board.CommandIsStep | sw/minihil/src/core/base_relay_controller.cc:28-94 | Changing one record and making one write is the step of a run for that command. |
| Board.StepWritesInOrder | sw/minihil/src/core/base_relay_controller.cc:149-185 | A step writes in channel order, each channel at most once. |
| Hardware.PinsDistinct | sw/minihil/src/hardware/gpiod_relay_controller.cc:19-22 | Each channel has a pin, no two the same. |
| Hardware.PinParity | sw/minihil/src/hardware/gpiod_relay_controller.cc:80-90 | What a pin shows is the parity of its channel's writes plus the latest failures in a row. |
| Hardware.PinAgreement | sw/minihil/src/hardware/gpiod_relay_controller.cc:80-90 | A pin agrees with the stored state (INACTIVE is ON) if and only if an even number of its latest writes failed in a row. |
| Hardware.BoardShowsStates | sw/minihil/src/hardware/gpiod_relay_controller.cc:54-90 | If every write goes through, each channel's pin is INACTIVE exactly when its state is ON, on every run from power-up. |
| Hardware.FailedWriteShows | sw/minihil/src/hardware/gpiod_relay_controller.cc:80-90 | The smallest disagreement: one set_relay whose write fails leaves the pin ACTIVE and the state ON. |
| Hardware.GpiodRelayController.constructor | sw/minihil/src/hardware/gpiod_relay_controller.cc:14-23 | The pin map is set, no lines are requested and nothing is written. |
| Hardware.GpiodRelayController.InitHardware | sw/minihil/src/hardware/gpiod_relay_controller.cc:27-78 | Succeeds iff one of the chips opens and the request is granted; then every channel's pin is an output that is ACTIVE, all relays off. |
| Hardware.GpiodRelayController.SetRelayPhysical | sw/minihil/src/hardware/gpiod_relay_controller.cc:80-90 | The lines stay what the log of writes and failures says; true iff lines are requested, the channel exists and the write went through; a failure changes no line. |
| Controller.BaseRelayController.constructor | sw/minihil/src/core/base_relay_controller.cc:6-10 | Eight default records. |
| Controller.BaseRelayController.SetRelayInternal | sw/minihil/src/core/base_relay_controller.cc:188-194 | One physical write if and only if the state changes. |
| Controller.BaseRelayController.SetRelay | sw/minihil/src/core/base_relay_controller.cc:28-37 | Refused with nothing changed, or the command applied to its channel with at most one write and every other record kept. |
| Controller.BaseRelayController.StartTimer | sw/minihil/src/core/base_relay_controller.cc:54-65 | The same for a timer. |
| Controller.BaseRelayController.StartPulse | sw/minihil/src/core/base_relay_controller.cc:67-78 | The same for a pulse. |
| Controller.BaseRelayController.StartBlink | sw/minihil/src/core/base_relay_controller.cc:80-94 | The same for a blink. |
| Controller.BaseRelayController.GetRelay | sw/minihil/src/core/base_relay_controller.cc:39-43 | True iff the channel exists and is ON. |
| Controller.BaseRelayController.GetAllStates | sw/minihil/src/core/base_relay_controller.cc:45-52 | Exactly the eight channels, each with its stored state. |
| Controller.BaseRelayController.GetRelayStatus | sw/minihil/src/core/base_relay_controller.cc:96-137 | The numbers of the status text are those of the specification, in 64-bit arithmetic; an active channel is reported as what its mode is, a channel out of range as invalid. |
| StatusQuery.StatusOnEveryRun | sw/minihil/src/core/base_relay_controller.cc:96-137 | On every run from power-up each kind of status is reported exactly when the channel is in that mode, with its state; the fall-through text never appears. |
| StatusQuery.StatusCountsDown | sw/minihil/src/core/base_relay_controller.cc:109-124 | On every run a pulse's status gives the milliseconds to its deadline, rounded up and 0 once it has passed, a timer's the whole seconds of these. |
| StatusQuery.StatusAfterToggle | sw/minihil/src/core/base_relay_controller.cc:104-105 | After set_relay the status is Toggle and the state set, through all ticks and all commands to other channels. |
| StatusQuery.StatusAfterTimer | sw/minihil/src/core/base_relay_controller.cc:109-115 | A timer of so many seconds is reported as a timer, ON, with the whole seconds left, until the first tick at or after its end; then as Toggle, OFF. |
| StatusQuery.StatusAfterPulse | sw/minihil/src/core/base_relay_controller.cc:117-123 | A pulse is reported as a pulse, ON, with the milliseconds left, until the first tick at or after its end; then as Toggle, OFF. |
| StatusQuery.StatusAfterBlink | sw/minihil/src/core/base_relay_controller.cc:125-129 | A blink is reported with the cycles left and the phase after the phase changes that its schedule makes; when all are made, as Toggle, OFF. |
| Controller.BaseRelayController.TickOne | sw/minihil/src/core/base_relay_controller.cc:150-184 | The branches of the tick, early exits included, refine the one-channel step, with one write iff the state changed; an inactive record is left alone. |
| Controller.BaseRelayController.Tick | sw/minihil/src/core/base_relay_controller.cc:146-186 | The in-place loop ticks all eight channels independently at one time, leaves the inactive ones as they are, and writes the changed states in channel order. |
| Controller.Section | sw/minihil/src/core/base_relay_controller.cc:28-194 | Each critical section of the object is one step of the specified run. |
| Controller.Replay | sw/minihil/src/core/base_relay_controller.cc:28-194 | Any schedule of critical sections makes the object's records and write log those of the specified run. |
| Controller.PowerUpAndRun | sw/minihil/src/core/base_relay_controller.cc:19-26 | From power-up, after any schedule, the board's lines are those of the run's writes, and agree with each state under the exact condition. |
| Framing.LinesUnique | sw/minihil/src/network/tcp_server.cc:254-271 | Lines and unterminated tail are the only way to read a stream as newline-free pieces. |
| Framing.LinesCover | sw/minihil/src/network/tcp_server.cc:254-271 | Lines and tail, put together with newlines, are the stream. |
| Framing.LinesAppend | sw/minihil/src/network/tcp_server.cc:252-258 | More bytes only complete the tail: framing can go on chunk by chunk. |
| Connection.HandleClient | sw/minihil/src/network/tcp_server.cc:238-271 | For every stream, cut in any way, and whenever m_running is cleared: every terminated line received that is neither empty nor a lone carriage return is handed to the router, in order, the buffer holds the tail, the controller goes through what the lines ask, and the bytes written back are their answers in order, all of them unless m_running was found cleared. |
| Connection.ServeBuffer | sw/minihil/src/network/tcp_server.cc:254-270 | The inner loop ends, having served every terminated line of the buffer in order and left its tail. |
| Connection.ServeLine | sw/minihil/src/network/tcp_server.cc:260-269 | A line that is neither empty nor a lone CR is carried out once and answered with one line, if m_running is still set. |
| Connection.Conversation | sw/minihildesk/src/app_controller.cc:187-209 | The bytes of a client's calls are read as exactly those requests, and the k-th answer is a true answer to the k-th call under its id, given right after its turn, among whatever other threads do. |
| Connection.AnswerFixed | sw/minihil/src/network/tcp_server.cc:254-270 | What a line is answered does not depend on the lines that come after it. |
| Connection.AnswersRead | sw/minihildesk/src/app_controller.cc:211-231 | Answers written back, broken off anywhere, are read by the client as exactly the whole ones, and give exactly their signals. |
| Framing.ChunkIndependence | sw/minihil/src/network/tcp_server.cc:238-271 | Two cuts of one stream give the same requests and the same rest. |
| Framing.AllRequests | sw/minihil/src/network/tcp_server.cc:260 | Lines of which none is empty or a lone carriage return are all handed over, in order. |
| Framing.BlankIgnored | sw/minihil/src/network/tcp_server.cc:260 | An empty line or a lone carriage return changes nothing, wherever it comes. |
| Framing.CrLfLine | sw/minihil/src/network/tcp_server.cc:256-261 | A request that ends in CR LF is handed over, with its carriage return. |
| Framing.ReceivedStops | sw/minihil/src/network/tcp_server.cc:248-250 | Nothing counts as received after the first read that returns nothing. |
| Router.SnapshotComplete | sw/minihil/src/main.cc:330-337 | A get_relays result has exactly the keys 1 to 8, each with that channel's state. |
| Router.PerformsOnChannels | sw/minihil/src/main.cc:310-399 | The handlers' range check implies the controller's. |
| Router.Outcomes | sw/minihil/src/main.cc:310-414 | A handler throws, or causes one command and returns its echo, or causes nothing; its error objects all carry -32602. |
| Router.FailedRequestsChangeNothing | sw/minihil/src/protocol/jsonrpc_router.cc:54-103 | An error response means that the controller was not touched; a request that touched it did one command and answers exactly its values; id is the request's or null. |
| Router.InternalErrorsAreExceptions | sw/minihil/src/main.cc:322-325 | The "Failed to ..." answers are unreachable: a -32603 is always an exception of a typed read. |
| Router.SingleAnswers | sw/minihil/src/protocol/jsonrpc_router.cc:54-87 | Every single request has a response that is an object with its id: the notification branches are dead. |
| Handling.BadEnvelopeRefused | sw/minihil/src/protocol/jsonrpc_router.cc:61-64 | A request that is no object, or has not version 2.0 and a method, gets -32600 under its id or null, and nothing is done. |
| Handling.UnknownMethodRefused | sw/minihil/src/protocol/jsonrpc_router.cc:81-83 | An unknown method gets -32601 and its name; nothing is done. |
| Handling.MissingKeyRefused | sw/minihil/src/main.cc:311-313 | A request without one of its method's parameters gets -32602; nothing is done. |
| Handling.FailedReadRefused | sw/minihil/src/protocol/jsonrpc_router.cc:84-86 | The first parameter that cannot be read as its type fails the request with -32603 and that read's exception; nothing is done. |
| Handling.OutOfRangeRefused | sw/minihil/src/main.cc:318-320 | If all can be read, a channel outside 1 to 8 gets -32602; nothing is done. |
| Handling.SetRelayObeyed | sw/minihil/src/main.cc:310-328 | Otherwise set_relay does exactly the command read, at this time, and answers success with the values read. |
| Handling.StartTimerObeyed | sw/minihil/src/main.cc:339-357 | The same for start_timer. |
| Handling.StartPulseObeyed | sw/minihil/src/main.cc:359-377 | The same for start_pulse. |
| Handling.StartBlinkObeyed | sw/minihil/src/main.cc:379-399 | The same for start_blink, each of its three numbers from its own key. |
| Handling.GetRelaysAnswered | sw/minihil/src/main.cc:330-337 | get_relays does nothing and answers the states of exactly the eight channels, whatever its parameters. |
| Handling.GetRelayStatusAnswered | sw/minihil/src/main.cc:401-414 | get_relay_status does nothing and answers the status of the channel asked for. |
| Handling.CommandsWereRead | sw/minihil/src/main.cc:310-399 | Conversely, whatever a request does is one command of the method it asks for, every value of which was read from its own key. |
| Router.SixMethods | sw/minihil/src/main.cc:310-414 | Six different methods are registered, get_relay_status for the status query. |
| Router.BatchResponses | sw/minihil/src/protocol/jsonrpc_router.cc:32-43 | A batch has one response per element, response i with the id of element i or null. |
| Router.OneByOne | sw/minihil/src/protocol/jsonrpc_router.cc:24-51 | Without array elements, a batch has the events and responses of its elements sent one by one among the same other events. |
| Router.BatchEqualsSequence | sw/minihil/src/protocol/jsonrpc_router.cc:24-51 | A non-empty batch equals the sequence of its elements if and only if none is an array. |
| Router.NestedBatch | sw/minihil/src/protocol/jsonrpc_router.cc:27-38 | The smallest difference: the batch of one empty array is answered by an invalid request, the empty array alone by an empty batch. |
| Dispatch.JsonRpcRouter.RegisterAll | sw/minihil/src/main.cc:310-414 | Exactly the six methods. |
| Dispatch.JsonRpcRouter.HandleSetRelay | sw/minihil/src/main.cc:310-328 | The handler's own tests, reads and call, in the source's order, have the specified outcome and effect. |
| Dispatch.JsonRpcRouter.HandleGetRelays | sw/minihil/src/main.cc:330-337 | The same for get_relays, which has no effect. |
| Dispatch.JsonRpcRouter.HandleStartTimer | sw/minihil/src/main.cc:339-357 | The same for start_timer. |
| Dispatch.JsonRpcRouter.HandleStartPulse | sw/minihil/src/main.cc:359-377 | The same for start_pulse. |
| Dispatch.JsonRpcRouter.HandleStartBlink | sw/minihil/src/main.cc:379-399 | The same for start_blink. |
| Dispatch.JsonRpcRouter.HandleGetRelayStatus | sw/minihil/src/main.cc:401-414 | The same for get_relay_status, which has no effect. |
| Dispatch.JsonRpcRouter.CallHandler | sw/minihil/src/protocol/jsonrpc_router.cc:70-72 | Whatever handler is registered, its outcome is the specified one and the controller object went through exactly the events it reports. |
| Dispatch.JsonRpcRouter.RunCommand | sw/minihil/src/main.cc:322-326 | A command is accepted iff it is for a channel, and is then the one event of the controller's run; otherwise nothing changes. |
| Dispatch.JsonRpcRouter.ReadRelays | sw/minihil/src/main.cc:330-337 | The result is the snapshot of all eight channels. |
| Dispatch.JsonRpcRouter.ProcessSingleRequest | sw/minihil/src/protocol/jsonrpc_router.cc:54-87 | Response and effect on the shared controller and its pins are those specified. |
| Dispatch.JsonRpcRouter.WrapResult | sw/minihil/src/protocol/jsonrpc_router.cc:74-86 | What becomes of any handler result, conversion failures included. |
| Dispatch.JsonRpcRouter.ProcessRequest | sw/minihil/src/protocol/jsonrpc_router.cc:14-52 | Every line gets one answer line: a parse error touches nothing; otherwise controller, writes and text are those of the document, other threads acting between its elements. |
| Dispatch.JsonRpcRouter.ProcessInTurn | sw/minihil/src/protocol/jsonrpc_router.cc:44-46 | A request after other threads' events: both are in the run, in that order. |
| Dispatch.JsonRpcRouter.ProcessBatch | sw/minihil/src/protocol/jsonrpc_router.cc:32-38 | The loop over a batch has the specified events and responses, one per element. |
| Client.PushedAll | sw/minihildesk/src/network/tcp_client.cc:125-142 | As long as the kernel takes something each time, the whole message goes out. |
| Client.PushedExact | sw/minihildesk/src/network/tcp_client.cc:125-142 | If the kernel fails after some bytes, exactly those it took are out; if it took enough, the whole message is. |
| Client.TcpClient.Disconnect | sw/minihildesk/src/network/tcp_client.cc:91-102 | Closed, and nothing of the old connection remains to be read. |
| Client.TcpClient.Connect | sw/minihildesk/src/network/tcp_client.cc:44-89 | A new connection starts with none of the old one's bytes; a failed one is closed. |
| Client.TcpClient.Send | sw/minihildesk/src/network/tcp_client.cc:116-143 | For every pattern of partial writes a prefix of the message goes out, all of it iff the result is true. |
| Client.TcpClient.ReceiveLine | sw/minihildesk/src/network/tcp_client.cc:145-177 | However the bytes arrive, the first line of what is to come, and everything after it stays; "" with nothing lost if there is none. |
| Client.AppController.SendJsonRpc | sw/minihildesk/src/app_controller.cc:187-209 | When connected the request goes out as one line under the next id and the id counter rises by one; otherwise nothing happens. |
| Client.AppController.ProcessResponse | sw/minihildesk/src/app_controller.cc:233-269 | The signals emitted are those of the answer, appended; a set_relay answer emits exactly its relay and state. |
| Client.AppController.ReadOnce | sw/minihildesk/src/app_controller.cc:213-225 | One round takes exactly one line off the stream and emits its signals, or stops at an empty line. |
| Client.TransportDelivers | sw/minihildesk/src/app_controller.cc:202-225 | Messages that print as lines, cut off anywhere, come out as exactly those messages on either side; none is an empty line, which would read as a lost connection. |
| Client.AppController.ReadLoop | sw/minihildesk/src/app_controller.cc:211-231 | The signals of a whole read thread are those of the stream's lines in order, up to the first empty line, the end, or the moment it is told to stop. |
| Client.ReadMessages | sw/minihildesk/src/app_controller.cc:211-231 | On a stream of printed messages the read thread processes every one, or as many as it has time for, emits exactly their signals, and stops by itself only after the last: it never takes an answer for a lost connection. |
| Calls.RequestRouted | sw/minihildesk/src/app_controller.cc:154-209 | A client's request reaches the handler of its method with its parameters and its id. |
| Calls.CallDecodes | sw/minihil/src/main.cc:310-399 | What the client encodes the server decodes: the handler asks for exactly the call's command. |
| Calls.CallExecutes | sw/minihil/src/protocol/jsonrpc_router.cc:54-87 | A call is carried out as made, once if it is for a channel, and truly answered. |
| Calls.AnswerSignalsTrue | sw/minihildesk/src/app_controller.cc:244-260 | The signals of a true answer are states the controller had when it was given. |
| Calls.NamedRelayShown | sw/minihildesk/src/app_controller.cc:247-251 | A result that names a relay and a state gives exactly that one signal. |
| Calls.UnreadableRelayNotShown | sw/minihildesk/src/app_controller.cc:247-251 | Unless one of the two cannot be read: then none. |
| Calls.NumbersShown | sw/minihildesk/src/app_controller.cc:252-263 | Any other result shows exactly its boolean entries under numbers. |
| Calls.ErrorsNotShown | sw/minihildesk/src/app_controller.cc:238-242 | An error shows nothing, a null error counts for nothing, a line that does not parse shows nothing. |
| Calls.EchoShown | sw/minihildesk/src/app_controller.cc:247-263 | A set_relay answer shows its relay, the answer to a start command nothing. |
| Calls.CommandAnswerShows | sw/minihildesk/src/app_controller.cc:247-263 | A true answer to a command shows the switched relay if it switched one, and nothing otherwise. |
| Calls.QueryShowsBoard | sw/minihildesk/src/app_controller.cc:251-260 | A get_relays answer gives one signal for each of the eight channels, all of one moment. |
| Protocol.NextKeeps | sw/minihildesk/src/app_controller.cc:187-269 | Every step of the system keeps accounting, truth of answers and truth of the view. |
| Protocol.ViewRefinesHistory | sw/minihildesk/src/app_controller.cc:233-264 | On every interleaving each signal comes from one answer and is the state its channel had at the point of the controller's history at which that answer's request was executed, after it was sent; these points never go back. |
| Protocol.AnswersTrue | sw/minihildesk/src/app_controller.cc:187-209 | On every interleaving the k-th answer is a true answer to the k-th call at the point at which it was executed. |
| Protocol.ViewComplete | sw/minihildesk/src/app_controller.cc:211-264 | The view and the sources of its signals are exactly those of the answers processed, in order. |
| Protocol.AnswerShown | sw/minihildesk/src/app_controller.cc:211-264 | The signals of each processed answer stand together in the view, once each and in order, and no other signal comes from it. |
| Protocol.CommandShown | sw/minihildesk/src/app_controller.cc:244-251 | On every execution the processed answer to a set_relay on a channel has exactly one signal, that relay in that state; the answer to a start command or to an unknown channel has none. |
| Protocol.TraceAccounted | sw/minihil/src/network/tcp_server.cc:254-270 | The controller's history is the foreign events and one event for each executed command of this client: none lost, none carried out twice. |
| Protocol.EveryCallCompletes | sw/minihildesk/src/app_controller.cc:187-231 | From every state the server's and client's own steps lead to one in which every call made is executed, answered and processed. |
| Protocol.RequestsAccounted | sw/minihildesk/src/app_controller.cc:187-209 | Requests sent are those processed, in flight or awaiting execution; the k-th answer carries the k-th request's id; ids are 1, 2, 3, ... |
| Protocol.SnapshotsAtomic | sw/minihil/src/core/base_relay_controller.cc:45-52 | Every get_relays answer of every execution shows all eight channels as they were together at one point. |
| ServerLifecycle.NextKeeps | sw/minihil/src/network/tcp_server.cc:127-289 | Every atomic piece of listener, handlers and `stop` keeps the counting, ownership, progress and shutdown invariants. |
| ServerLifecycle.SessionsCounted | sw/minihil/src/network/tcp_server.cc:190-199 | For each descriptor the list has as many entries as there are connections with it whose handler has not erased its entry, reuse included. |
| ServerLifecycle.EraseFindsEntry | sw/minihil/src/network/tcp_server.cc:273-287 | Every erase comes after the socket was closed and finds an entry of its descriptor. |
| ServerLifecycle.ServedWhileRunning | sw/minihil/src/network/tcp_server.cc:238-271 | While the server runs, a handler leaves its connection only because a handshake or a read failed. |
| ServerLifecycle.RequestsConserved | sw/minihil/src/network/tcp_server.cc:254-270 | Every request a handler has received is answered or still to be handled, on every interleaving, also after `stop` has begun. |
| ServerLifecycle.ShutdownComplete | sw/minihil/src/network/tcp_server.cc:127-167 | After the join no connection is added; the pass has shut down every one that still has its socket; when the context is freed every session is released and erased. |
| ServerLifecycle.StopAdvances | sw/minihil/src/network/tcp_server.cc:127-289 | Once the server is told to stop, every action of any thread, successful reads, tests of the flag and each request answered included, lowers the work left. |
| ServerLifecycle.StopEnds | sw/minihil/src/network/tcp_server.cc:127-271 | So after `stop` has begun every execution has only boundedly many actions, however many requests a chunk held. |
| ServerLifecycle.StopNeverStuck | sw/minihil/src/network/tcp_server.cc:127-167 | And until the context is freed some thread can act without waiting for a peer. |
| ClientLifecycle.FollowsKeeps | sw/minihildesk/src/app_controller.cc:97-148 | Every atomic piece of the application thread and the read threads keeps the invariant. |
| ClientLifecycle.OneReader | sw/minihildesk/src/app_controller.cc:211-231 | At most one read thread is alive, it is the one `m_readThread` stands for, and it never finds the socket closed. |
| ClientLifecycle.ReaderEndsStopped | sw/minihildesk/src/app_controller.cc:211-231 | A read thread ends only with m_running clear. |
| ClientLifecycle.NothingEnds | sw/minihildesk/src/app_controller.cc:216-223 | A read thread that has got an empty line never reads again. |
| ClientLifecycle.OthersReadOn | sw/minihildesk/src/app_controller.cc:212-225 | Any other goes on reading while m_running is set. |
| ClientLifecycle.ResourcesSafe | sw/minihildesk/src/app_controller.cc:97-148 | The client disconnects and dials only when no reader is alive; `m_readThread` is never overwritten while joinable; a reader starts with m_running set and a connected socket; m_running stays false from the exchange until a new connection is up; between connections the socket is closed. |
| ClientLifecycle.AfterJoin | sw/minihildesk/src/app_controller.cc:97-148 | Once the old reader is joined, a disconnect ends with all closed, and a connect goes on to a dial, after which either all is closed or one new reader runs on a connected socket with m_running set. |
| ClientLifecycle.DisconnectAdvances | sw/minihildesk/src/app_controller.cc:128-140 | During a disconnect every action of either thread lowers the work left. |
| ClientLifecycle.DisconnectEnds | sw/minihildesk/src/app_controller.cc:128-140 | So a disconnect takes boundedly many actions on every schedule. |
| ClientLifecycle.DisconnectNeverStuck | sw/minihildesk/src/app_controller.cc:128-140 | And some thread can always act without the peer: the join returns. |

## Left out

- TLS sessions, certificates and mutual authentication: a session is only something a handler releases before its socket.
- `bind`, `listen`, socket creation and the opening of GPIO chips: each is a boolean that says whether it worked.
- JSON text: parsing and printing are functions of `Json.Library`; `dump` is taken to be total and number literals to be text.
- Texts: status lines are the values they are made from; log and console output is not modelled.
- The GTK views, dispatcher queues and the clearing of the view on disconnect: the view is the sequence of signals.
- The number of connection-state signals: `readLoop` and `requestDisconnect` race on `m_running`, so it is not fixed.
- The handler's lookup of its TLS session by descriptor: an entry is erased after its socket is closed, so under reuse the
  first entry found may be another connection's; only the counts are proved.
- Configuration files, command line, signals, packaging, the SIL controller and the controller's own tick thread, which is
  any schedule of ticks.
- Several threads on one object: in `Controller` and `Dispatch` each mutex section is one method call and a run is any
  sequence of them; what other threads do between the elements of a batch is the parameter `env`. `TcpServer`'s lists and
  flags, which several threads change, are the values of the state machine in `ServerLifecycle` and not a class.
- Clock readings beyond the signed 64-bit nanosecond range.
- Connection.HandleClient: takes each answer to be sent whole, because the source does not look at what `send` returns.
- Dispatch.JsonRpcRouter.ProcessRequest: requires that a `method` that is looked at is a string, because the source converts
  it outside its `try` and any other value ends the handler thread.
- Client.AppController.SendJsonRpc: requires an id below 2^31 - 1, because the signed increment after it is undefined.
- Client.AppController.ReadLoop: requires an open socket, because `ClientLifecycle.OneReader` shows that a read thread never
  finds it closed; the sleeping branch is then dead.
- Protocol.RequestsAccounted: streams are reliable and every send complete; a connection that breaks in the middle is in
  `Client.TcpClient` and `ClientLifecycle` only. One connection of one client is followed, its other requests and all other
  clients being events of the controller.
