# Verified models of the ACP harness and its neighbours

This project models the parts of the repository whose correctness is hardest to see by
reading, and proves what they promise. The centre is the harness in `crates/buzz-acp`, which
drives an agent subprocess over JSON-RPC 2.0; the other models are the Rust source sanitizer
and module finder of the test-discovery script, the RESP codec of the relay benchmark and the
audio framer of the desktop application.

`dafny verify dfyconfig.toml` checks the whole project.

## How the models are built

* **The client** (`AcpMessages`, `AcpProtocol`, `AcpLoopSafety`, `AcpSessionSafety`,
  `AcpAnswers`, `AcpClient`). `AcpProtocol` gives the read loops, prompt and cancel as transitions over the
  client's fields. A run is driven by a script with one entry per loop iteration: the clock
  readings, the `select!` arm that fired, and how a write or a permission decision awaited
  there came out. Every interleaving of agent lines, steer requests and deadlines is some
  script; a script that stops, or leaves an await unfinished, is a future its caller may drop.
  The classes of `AcpClient` update the fields in place, and each method is proved to compute
  exactly its transition. A line enters as `AcpMessages.View` of its parsed JSON. The safety
  modules prove what every run keeps, `AcpAnswers` what each operation returns in terms of its
  own arguments.
* **The permission broker** (`PermissionBroker`, `PermissionAnswers`, `PermissionFlow`). The
  registry operations
  are a class; requests, controls, polls, finishes and drops are atomic steps of a transition
  system, and the theorems hold for every sequence of steps.
* **Redaction** (`Redaction`, `AssignmentRedaction`, `EncodedSizes`), **source scanning** (`RustSanitizer`,
  `ModuleRanges`), **configuration merging** (`DeepMerge`), **RESP** (`Resp`), **process
  cleanup** (`ProcessTree`), **subscriptions** (`Subscriptions`, `EventMatching`), **pool
  wake-up** (`PoolLifecycle`), **audio frames** (`AudioFramer`) and **display names**
  (`DisplayNames`): loops are methods with invariants, proved against specification functions
  or stated properties, and the promises are lemmas about those.

Clocks are natural numbers: seconds in the client, where the thirty-second cleanup grace is
the only constant that matters, and milliseconds in `ProcessTree`. Character indices are code
points.

## Where the code does less than one might expect

Each of these comes with the exact condition under which the property does hold.

* While a prompt runs, `last_prompt_id` and `current_hard_deadline` are set and cleared
  together. A cancel can break that: if a steer receiver is still installed when the drain
  starts, as it is after a prompt is dropped while its own line is being written, an accepted
  steer stores a deadline that no prompt owns. `CancelPairedIff` and `CancelGracePairedIff`
  give the condition, `BreakIsReachable` a run from a spawned client; `SessionsKeepPaired` is
  the positive result over whole sessions.
* A cancel drains on a fixed idle timeout of thirty seconds, so an agent that falls silent ends
  the drain long before an inherited deadline that is further off (`SilenceEndsDrain`).
  `DrainWaitsIff` is the exact condition; no timeout comes sooner than thirty seconds
  (`NoEarlyTimeout`).
* A steer in flight loses its ack when the loop leaves through a malformed permission request, a
  permission reply or a refusal whose write fails (`crates/buzz-acp/src/acp.rs:1763`, `1777`),
  or is dropped. On every other exit it gets exactly one (`RunLoopOk`, `UnackedIsInFlight`);
  `SteerLostIff` is the exact condition.
* A permission request can time out although the owner's decision was accepted: the wait finds
  the channel empty and its time up, and drops the receiver only afterwards, so a decision
  claimed in time can be sent in between. `TimedOutDecidedIff` is the exact condition,
  `DecisionCanCross` a run; a decision delivered before expiry never crosses (`OneShot`).
* The assignment pass blanks every bearer value exactly when no `authorization: bearer ` header
  begins inside the value of another one (`BearersBlankedIff`): the scan resumes behind the
  start of the inner header, because the marker itself contains a value delimiter.
  `DoubledBearerLeaks` is a concrete text. What the output looks like behind each marker it
  still contains holds for all six markers (`AssignmentsScrubbed`).
* A truncated text exceeds its byte budget by up to the three bytes of the ellipsis, unless a
  four-byte character left the room (`TruncatedSize`, `BoundHoldsIff`, `ShortTextOverruns`).
* The cleanup loop signals by the depth at which a process was first seen. That puts a child
  before its parent exactly when the child was recorded deeper (`ChildFirstIff`), as it was
  unless the parent had moved up before the child appeared (`RecordedDeeperIff`);
  `SignalsOrphanFirst` is a run in which the parent goes first.
* A process under the root is signalled in a round exactly when its pid was first recorded with
  the identity it has now (`SignalledIff`), so one that reuses a recorded pid is passed over,
  and the loop can succeed while it lives (`SucceedsOverReusedPid`).
* One pass of the token scanner is idempotent only where its marker does not occur, because
  the closing bracket of a redaction itself ends a token (`IdempotentIffAbsent`).
* Merging configurations is not associative (`AssociativeIff`, `NotAssociative`).
* The RESP reader decodes bulk strings, so byte strings survive the round trip exactly when
  they are UTF-8 (`CommandReadsBackIff`), that is, when they encode some text (`Utf8Iff`).
* The audio framer loses samples of a block that exceeds the room in the current buffer plus
  one frame (`FeedConserves`).
* A title without a thread root can exceed eighty characters when the agent's own name does
  (`ScopedTitleBoundIff`).
* The comment on `read_until_response` says that permission requests are approved
  automatically; the code asks the broker like the other loop, and the model follows the code.

## Model

| member | source | states |
|---|---|---|
| `AcpLoopSafety.RunLoopOk` | crates/buzz-acp/src/acp.rs:1377-1786 | Over every run of the idle-aware loop: at most one steer is in flight; each steer taken is acked in order, once, and never more, except one in flight when the loop leaves through an early error or is dropped; `Success` needs an error-free response to that steer's own id and, on `_session/steering`, a recognised outcome; ids are fresh, so no steer response is taken for the prompt's; the hard deadline never falls and is the largest of its start and `max_duration` after each injection; the run id is the one last announced; each unknown request read was refused exactly once with its own id; and the loop returns only on the first response to its request |
| `AcpLoopSafety.EnterOk` | crates/buzz-acp/src/acp.rs:1391-1409 | All of it holds on entry, when the expected id has been allocated and the receiver is taken into the loop |
| `AcpLoopSafety.StepOk` | crates/buzz-acp/src/acp.rs:1411-1786 | One iteration, whatever arm fires, keeps all of it |
| `AcpLoopSafety.StepKeepsClient` | crates/buzz-acp/src/acp.rs:1448-1782 | Every iteration keeps request ids increasing and allocated, at most one reply per permission request and none for a pending one, and no unadvertised steering call |
| `AcpLoopSafety.StepSteer` | crates/buzz-acp/src/acp.rs:1448-1730 | Every iteration keeps the acks matched to the steers taken |
| `AcpLoopSafety.StepDeadlines` | crates/buzz-acp/src/acp.rs:1406-1444 | Every iteration keeps the idle deadline at the last activity plus the idle timeout, and the hard deadline at its renewals |
| `AcpLoopSafety.StepDispatch` | crates/buzz-acp/src/acp.rs:1731-1782 | Every iteration keeps the replies to unknown requests and the announced run id in step with the messages read |
| `AcpLoopSafety.DispatchRefuses` | crates/buzz-acp/src/acp.rs:1748-1782 | Handling a message answers it with -32601 exactly when it has an id and an unknown string method and the write succeeds, and never ends the loop as a response would |
| `AcpLoopSafety.DispatchFrame` | crates/buzz-acp/src/acp.rs:1748-1782 | Handling a message never touches the id counter, the recorded prompt, its deadline or the steer receiver |
| `AcpSessionSafety.DeadlineBeforeLine` | crates/buzz-acp/src/acp.rs:1411-1444 | No line and no steer is taken in an iteration that starts at or past a deadline, and a tie counts as the hard one |
| `AcpSessionSafety.OnlyPassedDeadlines` | crates/buzz-acp/src/acp.rs:1411-1565 | A timeout is reported only on a clock reading at or past the nearer deadline, is an idle one exactly when the idle deadline was the nearer, and moves neither |
| `AcpSessionSafety.TimeoutsAreDue` | crates/buzz-acp/src/acp.rs:1411-1565 | The same over whole runs: a run that times out saw a reading at or past the deadline it blames |
| `AcpSessionSafety.IdleFollowsMessages` | crates/buzz-acp/src/acp.rs:1576-1618 | The idle clock restarts with each line that is valid JSON, later once more for a tool call, and with nothing else |
| `AcpSessionSafety.SteerUsesFreshRun` | crates/buzz-acp/src/acp.rs:1458-1548 | A steer is written under the run id last announced in this loop or before it, under the extension when there is none and it was advertised, and not at all otherwise |
| `AcpSessionSafety.SteerLostIff` | crates/buzz-acp/src/acp.rs:1458-1782 | Exactly when an iteration leaves the loop with a steer unacked: an early return from another message, or a drop in the steer's own write |
| `AcpSessionSafety.UnackedIsInFlight` | crates/buzz-acp/src/acp.rs:1377-1786 | At any point of a run at most the one steer in flight is unacked, and after an exit only an early return or a drop leaves it so |
| `AcpSessionSafety.FoundOption` | crates/buzz-acp/src/acp.rs:2016-2082 | The id looked up is that of the first option of the kind; there is none exactly when no option is of the kind or the first that is carries no id |
| `AcpSessionSafety.AllowNeedsApproval` | crates/buzz-acp/src/acp.rs:2016-2082 | A permission request is answered at most once, under its own id; an option of kind `allow_once` is selected only on an approval, and anything else selects a `reject_once` option or answers cancelled |
| `AcpSessionSafety.RunPlainOk` | crates/buzz-acp/src/acp.rs:1262-1344 | The loop without deadlines ends only on the first response to its request and refuses each unknown request on the way exactly once |
| `AcpSessionSafety.PromptLoopPaired` | crates/buzz-acp/src/acp.rs:848-910 | While a prompt's loop runs, prompt and deadline are both recorded, and the recorded deadline is the loop's own renewed one |
| `AcpSessionSafety.PromptPaired` | crates/buzz-acp/src/acp.rs:848-910 | A prompt leaves prompt and deadline both recorded or both clear, recorded exactly when it timed out or was dropped and is still to be cancelled |
| `AcpSessionSafety.CancelUntilKeeps` | crates/buzz-acp/src/acp.rs:1085-1133 | A cancel consumes the recorded prompt, reports its absence exactly when there was none, and without an installed steer receiver leaves no deadline behind |
| `AcpSessionSafety.DrainWaitsIff` | crates/buzz-acp/src/acp.rs:1025-1054 | A `cancel_with_cleanup` that times out has always waited for its drain deadline, the later of the inherited one and thirty seconds from its start, exactly when there is no prompt or the inherited one is not the later |
| `AcpSessionSafety.SilenceEndsDrain` | crates/buzz-acp/src/acp.rs:1115-1131 | Otherwise thirty seconds of silence end the drain on its fixed idle timeout, before that deadline |
| `AcpSessionSafety.NoEarlyTimeout` | crates/buzz-acp/src/acp.rs:1025-1133 | No timeout of either kind ends a drain within thirty seconds of its start |
| `AcpSessionSafety.CancelDrainsLongEnough` | crates/buzz-acp/src/acp.rs:1025-1054 | A hard timeout of the drain comes only at or past the later of the last renewed deadline and thirty seconds from its start |
| `AcpSessionSafety.DrainIsBounded` | crates/buzz-acp/src/acp.rs:1085-1133 | Without a steer receiver no line is read, and the drain is left, in an iteration that starts at or past the deadline it was given |
| `AcpSessionSafety.PromptOnTheWire` | crates/buzz-acp/src/acp.rs:848-910 | A prompt whose write succeeds is the next line on the wire, under the id it records, and otherwise nothing is written |
| `AcpSessionSafety.RunAppends` | crates/buzz-acp/src/acp.rs:1377-1786 | Lines once written stay, in their order |
| `AcpSessionSafety.CancelOnTheWire` | crates/buzz-acp/src/acp.rs:1090-1114 | A cancel first answers a pending permission request as cancelled and then sends the notice, stops at the first write that fails, and writes nothing without a prompt in flight |
| `AcpSessionSafety.InstalledReceiverBreaksPairing` | crates/buzz-acp/src/acp.rs:1085-1133 | A steer accepted during a drain stores a deadline without a prompt, shown by a concrete run of any client with a receiver installed |
| `AcpSessionSafety.BreakIsReachable` | crates/buzz-acp/src/acp.rs:848-1083 | A spawned client gets there: a receiver installed, a prompt dropped while its line is being written, then either cancel |
| `AcpSessionSafety.CancelPairedIff` | crates/buzz-acp/src/acp.rs:1025-1054 | `cancel_with_cleanup` keeps prompt and deadline paired on every run exactly when it starts without a prompt or without an installed steer receiver |
| `AcpSessionSafety.CancelGracePairedIff` | crates/buzz-acp/src/acp.rs:1069-1083 | The bounded variant does so also when its grace is zero, and in no other case |
| `AcpSessionSafety.SessionsKeepClientOk` | crates/buzz-acp/src/acp.rs:848-1197 | Over every session of prompts, cancels, requests and receiver changes: ids are never reused, each permission request has at most one reply across handler and cancel, a pending one has none, and unadvertised steering is never used |
| `AcpSessionSafety.SessionsKeepPaired` | crates/buzz-acp/src/acp.rs:848-1197 | Over every session that enters no cancel with a receiver installed, prompt and deadline are both recorded or both clear between operations |
| `AcpSessionSafety.SpawnedSessions` | crates/buzz-acp/src/acp.rs:589-1197 | All of that holds in every state a spawned client can get into; in particular a steering call is on the wire only if an `initialize` result read before advertised it |
| `AcpSessionSafety.SpawnedSessionsPaired` | crates/buzz-acp/src/acp.rs:589-1197 | From a spawned client on, prompt and deadline are paired between operations as long as no cancel is entered with a receiver installed |
| `AcpSessionSafety.InitializeKeeps` | crates/buzz-acp/src/acp.rs:664-675 | After `initialize` the steering flag is what the last result read said, and prompt and deadline are untouched |
| `AcpAnswers.PromptAnswered` | crates/buzz-acp/src/acp.rs:848-910 | A written prompt returns exactly what its loop exits with: on the first response to the id the prompt was given, its idle deadline always the last activity plus the idle timeout that was asked for, its steers acknowledged for its own session; an unwritten one says so |
| `AcpAnswers.PromptNumbers` | crates/buzz-acp/src/acp.rs:848-910 | A prompt uses up one id for itself and one for each steer it tried to write, and its loop takes the steer receiver with it |
| `AcpAnswers.PromptSteersFor` | crates/buzz-acp/src/acp.rs:1458-1548 | After a prompt's own line the only requests written are steers for its session |
| `AcpAnswers.RunSteersFor` | crates/buzz-acp/src/acp.rs:1458-1548 | The same of every run of the loop |
| `AcpAnswers.RequestAnswered` | crates/buzz-acp/src/acp.rs:1167-1197 | A request is the next line on the wire under the next id, and returns on the first response to that id |
| `AcpAnswers.CancelAnswered` | crates/buzz-acp/src/acp.rs:1085-1133 | A cancel reports a missing prompt, a failed reply or a failed notice as such, and otherwise what its drain exits with, on the first response to the recorded prompt's id |
| `AcpAnswers.GraceAnswered` | crates/buzz-acp/src/acp.rs:1069-1083 | The bounded cancel reports its own timeout, with the grace it was given, exactly when its drain ran into the hard deadline, which was then due, and never a bare hard timeout |
| `AcpAnswers.GraceIsBounded` | crates/buzz-acp/src/acp.rs:1069-1083 | The bounded cancel is over with the first iteration that starts once its grace has passed: whatever came there or later makes no difference |
| `AcpAnswers.CancelIsBounded` | crates/buzz-acp/src/acp.rs:1025-1054 | So is `cancel_with_cleanup`, from the later of the inherited deadline and thirty seconds after its start |
| `AcpAnswers.LateInputsUnread` | crates/buzz-acp/src/acp.rs:1411-1444 | So is any drain without a receiver, from the deadline it was given |
| `AcpAnswers.PermissionAnswered` | crates/buzz-acp/src/acp.rs:2016-2082 | A decided request whose reply is written adds exactly one line, under the request's own id, with the id of the first `allow_once` option on an approval and of the first `reject_once` option otherwise |
| `AcpAnswers.PermissionUnanswered` | crates/buzz-acp/src/acp.rs:2016-2082 | Whatever keeps a request from being answered ends the loop with its own error, and a request with an id stays recorded as pending |
| `AcpAnswers.RefusalAnswered` | crates/buzz-acp/src/acp.rs:1755-1782 | A request for an unknown method is refused under its own id and name, or ends the loop when that cannot be written |
| `AcpAnswers.AnnouncedIsLast` | crates/buzz-acp/src/acp.rs:1862-1895 | The announced run is that of the last message that carries one, a null clearing it, and the one on entry when none does |
| `AcpAnswers.SteerTaken` | crates/buzz-acp/src/acp.rs:1458-1548 | A steer gets the next id and is in flight once its line is written, and is refused at once when it cannot be sent or its write fails |
| `AcpAnswers.SteerAnswered` | crates/buzz-acp/src/acp.rs:1620-1730 | The response to a steer settles it by its error, transport and outcome, and moves the hard deadline only when it reached this turn, and never back |
| `AcpAnswers.SilenceIsMeasured` | crates/buzz-acp/src/acp.rs:1411-1444 | The silence of a hard timeout is the time since the last activity |
| `AcpAnswers.SleepTimesOut` | crates/buzz-acp/src/acp.rs:1550-1565 | Waking up with nothing to read ends the loop exactly when one of the deadlines is due |
| `AcpAnswers.LineEnds` | crates/buzz-acp/src/acp.rs:1576-1618 | The end of the output, an overlong line and a broken read end the loop each with its own error; a blank or unparsable line changes nothing |
| `AcpAnswers.PlainLineEnds` | crates/buzz-acp/src/acp.rs:1262-1344 | The same in the loop without deadlines |
| `AcpAnswers.InitializeRecords` | crates/buzz-acp/src/acp.rs:664-675 | After a successful `initialize` the client supports steering exactly when the result's `_meta.steering.supported` is true, and after a failed one as before |
| `AcpMessages.UpdatesAreRead` | crates/buzz-acp/src/acp.rs:1802-1895 | A run id is set by a string and cleared by a null under `_meta.goose.activeRunId`, and a tool call is recognised |
| `AcpMessages.OddLinesAreRead` | crates/buzz-acp/src/acp.rs:1748-1895 | A method that is no string, a permission request without a list of options and an update of another kind are told apart from the regular ones |
| `AcpMessages.CallsAreRead` | crates/buzz-acp/src/acp.rs:1748-1782 | Calls are read by their method name, and any other name is unknown |
| `AcpMessages.OptionsAreRead` | crates/buzz-acp/src/acp.rs:2016-2082 | Permission options are read in order, each with its kind and id |
| `AcpMessages.ResponsesAreRead` | crates/buzz-acp/src/acp.rs:1620-1743 | A response has an id and no method; its error, result and steering outcome are read from their members |
| `AcpMessages.ErrorCodeIs` | crates/buzz-acp/src/acp.rs:121-128 | An error's code is its own when it is a 64-bit number, and the default otherwise |
| `AcpClients.AcpClient.constructor` | crates/buzz-acp/src/acp.rs:589-608 | A spawned client has allocated no id, recorded no prompt and no steering support, and written nothing |
| `AcpClients.AcpClient.WriteLine` | crates/buzz-acp/src/acp.rs:1139-1153 | A line reaches the agent whole or not at all, and a failure is reported |
| `AcpClients.AcpClient.HandlePermissionRequest` | crates/buzz-acp/src/acp.rs:2016-2082 | Refines the permission transition that `PermissionAnswered` and `PermissionUnanswered` describe: pending until its reply is written, error on a missing id or missing options |
| `AcpClients.AcpClient.HandleMessage` | crates/buzz-acp/src/acp.rs:1748-1782 | Refines the dispatch transition |
| `AcpClients.AcpClient.ReadUntilResponse` | crates/buzz-acp/src/acp.rs:1262-1344 | Refines a whole run of the loop without deadlines |
| `AcpClients.AcpClient.RoundTrip` | crates/buzz-acp/src/acp.rs:1167-1197 | Refines a request: fresh id, write, and the loop for its response |
| `AcpClients.AcpClient.InitializeAgent` | crates/buzz-acp/src/acp.rs:664-675 | Refines `initialize`, which records steering support from its result |
| `AcpClients.ReadLoop.constructor` | crates/buzz-acp/src/acp.rs:1391-1409 | Enters the loop, taking the steer receiver out of the client |
| `AcpClients.ReadLoop.LeaveWith` | crates/buzz-acp/src/acp.rs:1576-1618 | Leaving releases a steer in flight with the neutral ack |
| `AcpClients.ReadLoop.TimeOutAt` | crates/buzz-acp/src/acp.rs:1411-1444 | Refines the timeout transition with its silence figure |
| `AcpClients.ReadLoop.SteerArm` | crates/buzz-acp/src/acp.rs:1458-1548 | Refines taking a steer: choice of transport, fresh id, write, and immediate acks on failure |
| `AcpClients.ReadLoop.SteerResponse` | crates/buzz-acp/src/acp.rs:1620-1730 | Refines the steer response: ack by outcome, and renewal of both deadlines only on an injection |
| `AcpClients.ReadLoop.HandleLine` | crates/buzz-acp/src/acp.rs:1616-1782 | Refines the handling of a parsed line: steer response first, then the prompt's, then dispatch |
| `AcpClients.ReadLoop.Iterate` | crates/buzz-acp/src/acp.rs:1411-1786 | Refines one iteration |
| `AcpClients.ReadLoop.Run` | crates/buzz-acp/src/acp.rs:1377-1786 | Refines a whole run of the idle-aware loop, so everything proved of runs holds of this object |
| `AcpClients.SessionPrompt` | crates/buzz-acp/src/acp.rs:848-910 | Refines the prompt operation of `PromptAnswered`, with the pair cleared on every exit but a timeout or a drop |
| `AcpClients.CancelPending` | crates/buzz-acp/src/acp.rs:1097-1110 | Refines answering a pending permission as cancelled, once |
| `AcpClients.Drain` | crates/buzz-acp/src/acp.rs:1115-1132 | Refines one whole loop over the client |
| `AcpClients.CancelWithCleanupUntil` | crates/buzz-acp/src/acp.rs:1085-1133 | Refines the drain up to a given deadline |
| `AcpClients.CancelWithCleanup` | crates/buzz-acp/src/acp.rs:1025-1054 | Refines the cancel with inherited deadline |
| `AcpClients.CancelWithCleanupGrace` | crates/buzz-acp/src/acp.rs:1069-1083 | Refines the bounded cancel and its own timeout error |
| `PermissionBroker.OneShot` | crates/buzz-acp/src/permission.rs:117-304 | In every reachable state: the registry is within its limit; a request has at most one accepted decision, made by a control equal in all nine binding fields and claimed before expiry; its outcome follows that decision unless the decision crossed with the end of the wait, which none delivered before expiry does; and a request that ended made exactly one report and left no entry |
| `PermissionBroker.TimedOutDecidedIff` | crates/buzz-acp/src/permission.rs:194-238 | A request that timed out has an accepted decision exactly when a send got in between the last poll of its wait and the drop of its receiver |
| `PermissionBroker.DecisionCanCross` | crates/buzz-acp/src/permission.rs:194-238 | A run in which that happens |
| `PermissionBroker.RunOk` | crates/buzz-acp/src/permission.rs:117-304 | Every interleaving of requests, controls, sends, polls, finishes and drops keeps the broker's invariant |
| `PermissionBroker.MismatchChangesNothing` | crates/buzz-acp/src/permission.rs:205-238 | A control that differs in any binding field from an unexpired request changes nothing |
| `PermissionBroker.TimelySendAccepted` | crates/buzz-acp/src/permission.rs:172-238 | A decision claimed in time that reaches the channel before expiry is accepted unless the request was dropped, and does not cross with the timeout, because the wait starts after the expiry was fixed |
| `PermissionBroker.HistoryOnlyGrows` | crates/buzz-acp/src/permission.rs:117-304 | Accepted decisions, claims and reports are never taken back |
| `PermissionBroker.SettledFollowsAccepted` | crates/buzz-acp/src/permission.rs:194-202 | A settled outcome is the accepted decision, unless they crossed |
| `PermissionBroker.Broker.constructor` | crates/buzz-acp/src/permission.rs:104-115 | A broker starts with nothing pending |
| `PermissionBroker.Broker.TryRegister` | crates/buzz-acp/src/permission.rs:155-170 | Registers exactly below the limit, under the request's own id, and so never outgrows it |
| `PermissionBroker.Broker.ResolveControl` | crates/buzz-acp/src/permission.rs:205-238 | Not pending exactly when the id is unknown, expired exactly when its time is up, claimed exactly on an equal binding in time; the entry goes when expired or claimed and stays on a mismatch |
| `PermissionBroker.Broker.Remove` | crates/buzz-acp/src/permission.rs:248-252 | Removes exactly one id |
| `PermissionBroker.PendingRequestGuard.constructor` | crates/buzz-acp/src/permission.rs:255-270 | A new guard has reported nothing |
| `PermissionBroker.PendingRequestGuard.Finish` | crates/buzz-acp/src/permission.rs:272-276 | Finishing removes the entry and reports the outcome, and the drop that follows reports nothing more |
| `PermissionBroker.PendingRequestGuard.Drop` | crates/buzz-acp/src/permission.rs:297-304 | An unfinished guard removes the entry and reports a cancellation |
| `PermissionAnswers.BindingFields` | crates/buzz-acp/src/permission.rs:124-151 | A request is made exactly for an observed agent with an index, a session and a turn, by a runtime with two valid keys, a relay and a nonce, and its binding has each of them under its own name |
| `PermissionAnswers.ValidPubkeyIff` | crates/buzz-acp/src/permission.rs:494-496 | A key is valid exactly when it is 64 hexadecimal digits |
| `PermissionAnswers.BindingsAreOwn` | crates/buzz-acp/src/permission.rs:124-151 | In every reachable state a request is bound to its id and to this runtime's owner, agent, relay and nonce |
| `PermissionAnswers.Prepares` | crates/buzz-acp/src/permission.rs:139-153 | A fresh request is undecided and expires one timeout after it was made |
| `PermissionAnswers.Registers` | crates/buzz-acp/src/permission.rs:155-170 | It is registered with its binding and expiry exactly when there is room, and refused otherwise |
| `PermissionAnswers.MatchingControlClaims` | crates/buzz-acp/src/permission.rs:212-237 | In every state that keeps the invariant, a control with the binding of a registered and unexpired request takes it, whichever way it decides: the entry is gone, the claim recorded and the decision on its way |
| `PermissionAnswers.DecisionSettles` | crates/buzz-acp/src/permission.rs:194-237 | Sent and polled in time, that decision settles the request as approved or denied, as it says |
| `PermissionAnswers.ExpiredControlCloses` | crates/buzz-acp/src/permission.rs:221-224 | A control for an expired request removes it and drops its channel |
| `PermissionAnswers.UnknownControlIgnored` | crates/buzz-acp/src/permission.rs:217-220 | A control for a request that is not registered changes nothing |
| `PermissionAnswers.WaitBegins` | crates/buzz-acp/src/permission.rs:194-194 | A wait lasts one timeout from its own start |
| `PermissionAnswers.WaitGoesOn` | crates/buzz-acp/src/permission.rs:194-199 | A wait whose sender was dropped is a denial, and one with an empty channel goes on before its deadline |
| `PermissionAnswers.WaitLapses` | crates/buzz-acp/src/permission.rs:194-199 | From its deadline on, an empty channel is a timeout |
| `PermissionAnswers.FinishReports` | crates/buzz-acp/src/permission.rs:200-276 | A settled request is reported once with its outcome and leaves no entry |
| `PermissionAnswers.DropReports` | crates/buzz-acp/src/permission.rs:297-304 | A request dropped while it waits is reported once as cancelled and leaves no entry |
| `PermissionFlow.AllowNeedsOwnerApproval` | crates/buzz-acp/src/permission.rs:194-238 | In every reachable state of the broker, an option the agent offers only as `allow_once` is selected only after the broker accepted an Approve for that exact binding in time |
| `Redaction.RedactTokenAfterMarker` | crates/buzz-acp/src/permission.rs:425-439 | Computes the piecewise specification of one marker's pass |
| `Redaction.RedactNext` | crates/buzz-acp/src/permission.rs:429-436 | One turn of the loop: the text up to the first token with the token blanked, and what is left to scan |
| `Redaction.MarkerIsRedacted` | crates/buzz-acp/src/permission.rs:425-439 | After a marker's own pass every occurrence of it is followed by the redaction and then a token end or the end |
| `Redaction.OtherStaysRedacted` | crates/buzz-acp/src/permission.rs:416-423 | A later pass neither breaks another marker's redactions nor creates new occurrences of it |
| `Redaction.SixMarkersRedacted` | crates/buzz-acp/src/permission.rs:416-423 | After all six passes every occurrence of every marker, in any text, is followed by the redaction |
| `Redaction.OnlyTokensChange` | crates/buzz-acp/src/permission.rs:425-439 | A pass replaces whole tokens right behind its marker and keeps every other character, in its place but for the shift |
| `Redaction.IdempotentIffAbsent` | crates/buzz-acp/src/permission.rs:425-439 | A pass is idempotent on exactly the texts without its marker |
| `AssignmentRedaction.CollectHits` | crates/buzz-acp/src/permission.rs:452-466 | Collects the value ranges of one marker |
| `AssignmentRedaction.CollectAll` | crates/buzz-acp/src/permission.rs:442-467 | Collects the ranges of all markers in order |
| `AssignmentRedaction.SpliceRanges` | crates/buzz-acp/src/permission.rs:469-480 | Builds the text with the ranges blanked, skipping those that start before the cursor |
| `AssignmentRedaction.RedactAssignmentValues` | crates/buzz-acp/src/permission.rs:441-481 | Computes the specification of the whole assignment pass |
| `AssignmentRedaction.DisjointOrSameEnd` | crates/buzz-acp/src/permission.rs:441-481 | Any two collected ranges are disjoint or end together |
| `AssignmentRedaction.SkippingLosesNothing` | crates/buzz-acp/src/permission.rs:468-480 | So every collected range, skipped or not, is covered by an applied one with the same end |
| `AssignmentRedaction.AssignmentsScrubbed` | crates/buzz-acp/src/permission.rs:441-481 | In the output every occurrence of any of the six markers, in any letter case, is followed by the redaction, a value end or the end of the text |
| `AssignmentRedaction.AssignedValuesBlanked` | crates/buzz-acp/src/permission.rs:441-481 | Every value after one of the five `=` markers in the input is blanked to its end |
| `AssignmentRedaction.OnlyValuesChange` | crates/buzz-acp/src/permission.rs:441-481 | The assignment pass replaces whole values right behind one of its markers and keeps every other character, in its place but for the shift |
| `AssignmentRedaction.BearersBlankedIff` | crates/buzz-acp/src/permission.rs:441-481 | The pass blanks every bearer value of a text exactly when no bearer header of the text begins inside the value of another |
| `AssignmentRedaction.BlankedIffCovered` | crates/buzz-acp/src/permission.rs:441-481 | Whether a bearer value is blanked depends on the bearer marker's own scan alone, whatever other markers surround it |
| `AssignmentRedaction.BearerCoveredIff` | crates/buzz-acp/src/permission.rs:452-466 | That scan covers every bearer value under the same condition |
| `AssignmentRedaction.DoubledBearerIsNested` | crates/buzz-acp/src/permission.rs:441-481 | A doubled header is such a text |
| `AssignmentRedaction.DoubledBearerLeaks` | crates/buzz-acp/src/permission.rs:441-481 | The value behind the second of two headers in a row is not blanked |
| `AssignmentRedaction.BothPassesHold` | crates/buzz-acp/src/permission.rs:416-423 | The assignment pass keeps what the token passes achieved and adds its own |
| `AssignmentRedaction.FittingIsLongest` | crates/buzz-acp/src/permission.rs:483-491 | The prefix kept is the longest one, at a character boundary, within the byte budget |
| `AssignmentRedaction.TruncatedSize` | crates/buzz-acp/src/permission.rs:483-492 | The ellipsis comes on top: a truncated text is at most three bytes over the budget, and within it exactly when a four-byte character starts three bytes before it |
| `EncodedSizes.BytesAreEncoded` | crates/buzz-acp/src/permission.rs:483-492 | The bytes that truncation counts for a text are those of its UTF-8 encoding |
| `AssignmentRedaction.ShortTextOverruns` | crates/buzz-acp/src/permission.rs:483-492 | Four letters cut to three bytes take six |
| `AssignmentRedaction.BoundHoldsIff` | crates/buzz-acp/src/permission.rs:416-423 | The same bound and exact condition for the whole redaction |
| `AssignmentRedaction.TokensStayHidden` | crates/buzz-acp/src/permission.rs:416-423 | After truncation still no character of a token follows its marker: at most a cut redaction and the ellipsis |
| `AssignmentRedaction.ValuesStayHidden` | crates/buzz-acp/src/permission.rs:416-423 | After truncation every value marker, in any letter case, is followed by a value end, the end of the text, the redaction, or a cut redaction and the ellipsis |
| `RustSanitizer.SanitizeRust` | scripts/check-postgres-test-discovery.py:30-99 | Computes the token-by-token specification, in place on the character list |
| `RustSanitizer.SanitizeNext` | scripts/check-postgres-test-discovery.py:36-99 | One step blanks exactly the token at the index or passes one code character, and touches nothing else |
| `RustSanitizer.ScanToken` | scripts/check-postgres-test-discovery.py:36-99 | Finds the end of the comment or literal at the index, and knows where no newline needs sparing |
| `RustSanitizer.ScanBlock` | scripts/check-postgres-test-discovery.py:43-59 | Finds the end of a nested block comment |
| `RustSanitizer.ScanString` | scripts/check-postgres-test-discovery.py:81-97 | Finds the end of a string, escapes included |
| `RustSanitizer.BlankRange` | scripts/check-postgres-test-discovery.py:43-59 | Blanks a range, sparing newlines when asked |
| `RustSanitizer.KeepsOffsets` | scripts/check-postgres-test-discovery.py:30-99 | Length and newline positions are kept, and every other character stays or becomes a space |
| `RustSanitizer.SanitizedChar` | scripts/check-postgres-test-discovery.py:30-99 | A code character stays as it is, and a character of a comment or literal is blanked |
| `RustSanitizer.BlankedInToken` | scripts/check-postgres-test-discovery.py:30-99 | A blanked character belongs to a comment or literal that is blanked as a whole |
| `RustSanitizer.LeavesNoOpeners` | scripts/check-postgres-test-discovery.py:30-99 | No double quote, `//` or `/*` is left |
| `RustSanitizer.Idempotent` | scripts/check-postgres-test-discovery.py:30-99 | Sanitizing twice is sanitizing once: blanking never forms a new literal |
| `RustSanitizer.CommentIsOneToken` | scripts/check-postgres-test-discovery.py:43-59 | A block comment put together from characters and nested comments is one token, to its own closer |
| `RustSanitizer.StringIsOneToken` | scripts/check-postgres-test-discovery.py:81-97 | A string or byte string put together from plain characters and escapes is one token, to its own quote |
| `RustSanitizer.RawIsOneToken` | scripts/check-postgres-test-discovery.py:69-79 | A raw string is one token, to the first quote with as many hashes as it opened with |
| `RustSanitizer.LineCommentIsOneToken` | scripts/check-postgres-test-discovery.py:36-42 | A line comment is one token, up to its newline or the end of the text |
| `RustSanitizer.CharIsOneToken` | scripts/check-postgres-test-discovery.py:61-67 | A written character or byte literal, plain, escaped, hexadecimal or Unicode, is one token |
| `RustSanitizer.LiteralIsWritten` | scripts/check-postgres-test-discovery.py:61-67 | Only a written literal is read as one, so a lifetime is code |
| `RustSanitizer.OpensIff` | scripts/check-postgres-test-discovery.py:36-98 | A character starts a token exactly when a comment, a character literal, a raw string or a string is written there |
| `RustSanitizer.UnclosedComment` | scripts/check-postgres-test-discovery.py:43-59 | A block comment that is never closed runs to the end of the text |
| `RustSanitizer.UnclosedString` | scripts/check-postgres-test-discovery.py:81-97 | So does a string, also when its last character is a backslash |
| `RustSanitizer.UnclosedRaw` | scripts/check-postgres-test-discovery.py:69-79 | So does a raw string |
| `RustSanitizer.CharLiteralShape` | scripts/check-postgres-test-discovery.py:61-67 | A character or byte literal has at least three characters and no newline |
| `ModuleRanges.MatchBraces` | scripts/check-postgres-test-discovery.py:154-160 | The stack pairs each opening brace with the one closer of balanced text, and leaves out exactly the unclosed ones |
| `ModuleRanges.ReadBrace` | scripts/check-postgres-test-discovery.py:155-160 | Reading one character keeps every earlier opening brace either paired with its closer or open on the stack |
| `ModuleRanges.NestedOrDisjoint` | scripts/check-postgres-test-discovery.py:152-168 | Two matched pairs are nested or disjoint |
| `ModuleRanges.MatchingIsUnique` | scripts/check-postgres-test-discovery.py:154-160 | There is only one such pairing |
| `ModuleRanges.CollectRanges` | scripts/check-postgres-test-discovery.py:162-168 | Collects the inline modules whose brace is matched, in order |
| `ModuleRanges.FindModuleRanges` | scripts/check-postgres-test-discovery.py:152-168 | Every range is a matched pair of the sanitized text, and any two are nested or disjoint |
| `ModuleRanges.RangesNestOrDisjoint` | scripts/check-postgres-test-discovery.py:152-168 | Of any two returned ranges one encloses the other or they do not meet |
| `ModuleRanges.WrittenIsRead` | scripts/check-postgres-test-discovery.py:18-18 | A spelled-out `mod name {` is matched with exactly those bounds |
| `ModuleRanges.ReadIsWritten` | scripts/check-postgres-test-discovery.py:18-18 | Whatever is matched is spelled out there |
| `ModuleRanges.RangesAreComplete` | scripts/check-postgres-test-discovery.py:162-168 | Every module spelled out in the text whose brace is matched is listed, under its name, as long as spaces and word characters are what the expression takes them for |
| `ModuleRanges.RangesAreWritten` | scripts/check-postgres-test-discovery.py:162-168 | Every listed range stems from such a module |
| `DeepMerge.DeepMergeInto` | crates/buzz-acp/src/acp.rs:228-248 | Computes the recursive merge key by key, whatever the order of the keys |
| `DeepMerge.OverlayLeafWins` | crates/buzz-acp/src/acp.rs:228-248 | A leaf of the overlay that is no object is found at its path in the result |
| `DeepMerge.BaseSurvives` | crates/buzz-acp/src/acp.rs:228-248 | A path that the overlay leaves at a missing key, with objects on both sides above, keeps the base's value |
| `DeepMerge.EveryPathExplained` | crates/buzz-acp/src/acp.rs:228-248 | Whatever is found at a path of the result came from the overlay or the base there |
| `DeepMerge.MergeSelf` | crates/buzz-acp/src/acp.rs:228-248 | Merging a configuration with itself changes nothing |
| `DeepMerge.MergeAgain` | crates/buzz-acp/src/acp.rs:228-248 | Merging the same overlay twice is merging it once |
| `DeepMerge.CoveredIff` | crates/buzz-acp/src/acp.rs:228-248 | Exactly when an overlay hides its base completely |
| `DeepMerge.AssociativeIff` | crates/buzz-acp/src/acp.rs:228-248 | Exactly when the grouping of two merges makes no difference |
| `DeepMerge.NotAssociative` | crates/buzz-acp/src/acp.rs:228-248 | A scalar in the middle makes one |
| `DeepMerge.BuildCodexConfigEnv` | crates/buzz-acp/src/acp.rs:277-365 | Succeeds only with objects throughout, and then gives the plain fold of merges with network access forced on; an error names the first value that is no object and says whether it is JSON at all |
| `DeepMerge.CodexEntriesAt` | crates/buzz-acp/src/acp.rs:288-299 | The entries merged are the values of exactly the `CODEX_CONFIG` pairs, in the order of the pairs |
| `DeepMerge.ForcedTouchesOnlyNetwork` | crates/buzz-acp/src/acp.rs:347-364 | Forcing sets network access to true and differs from the fold nowhere else, apart from creating the sandbox object when missing |
| `Resp.EncodeCommand` | perf/relay_bus_scaling.py:110-117 | Writes the wire form of the command |
| `Resp.ReadsBack` | perf/relay_bus_scaling.py:129-153 | Reading the wire form of any readable reply gives that reply back and leaves exactly the bytes behind it |
| `Resp.AllReadBack` | perf/relay_bus_scaling.py:129-153 | Frames in a row are read back in order |
| `Resp.CommandReadsBackIff` | perf/relay_bus_scaling.py:110-153 | A command is read back as sent, whatever follows it and whatever line breaks it contains, exactly when every part is UTF-8 |
| `Resp.StatusReadsBack` | perf/relay_bus_scaling.py:133-134 | A status line is read back as its text |
| `Resp.ErrorRaises` | perf/relay_bus_scaling.py:135-136 | An error line is raised with its text |
| `Resp.NilArrayReadsBack` | perf/relay_bus_scaling.py:148-151 | An array of length minus one is no value |
| `Resp.UnendedLineRaises` | perf/relay_bus_scaling.py:120-126 | A line that never ends is malformed, and one without a byte is a closed stream |
| `Resp.BareLineFeedRaises` | perf/relay_bus_scaling.py:120-126 | So is a line ended by a line feed alone, and what follows it stays unread |
| `Resp.BulkReadIff` | perf/relay_bus_scaling.py:139-147 | A bulk body is read exactly when all its bytes are there and CR LF follows, and is text exactly when it is UTF-8 |
| `Resp.PaddedParses` | perf/relay_bus_scaling.py:137-138 | A number is read whatever white space surrounds it |
| `Resp.Utf8Iff` | perf/relay_bus_scaling.py:110-117 | Bytes pass as UTF-8 exactly when they are the encoding of some text |
| `Resp.Stream.constructor` | perf/relay_bus_scaling.py:120-126 | A stream holds the bytes still to come |
| `Resp.Stream.Take` | perf/relay_bus_scaling.py:143-144 | A read gets the bytes asked for or what is left |
| `Resp.Stream.TakeLine` | perf/relay_bus_scaling.py:120-126 | Consumes one line as specified, with the error for a line cut short |
| `Resp.Stream.TakeBulk` | perf/relay_bus_scaling.py:139-147 | Consumes a bulk string by its length and checks its terminator |
| `Resp.Stream.TakeReply` | perf/relay_bus_scaling.py:129-153 | Consumes exactly what the reading function reads, with the same reply or error |
| `Resp.Stream.TakeItems` | perf/relay_bus_scaling.py:148-152 | Consumes the elements of an array in order, stopping at the first error |
| `ProcessTree.BuildChildren` | crates/buzz-acp/src/browser_mcp.rs:527-530 | Groups the processes of a snapshot by their parent |
| `ProcessTree.Expand` | crates/buzz-acp/src/browser_mcp.rs:537-543 | Queues the children not yet seen, one level deeper |
| `ProcessTree.Visit` | crates/buzz-acp/src/browser_mcp.rs:535-544 | One turn of the search: the head of the queue joins the tree and its unseen children the queue |
| `ProcessTree.BuildTree` | crates/buzz-acp/src/browser_mcp.rs:522-546 | Returns every process that descends from the root exactly once at its depth, and no other, whatever the order of the snapshot and even when parent links form a circle |
| `ProcessTree.DepthIsUnique` | crates/buzz-acp/src/browser_mcp.rs:522-546 | A process has only one depth under a root |
| `ProcessTree.ParentIsAbove` | crates/buzz-acp/src/browser_mcp.rs:522-546 | Every process but the root sits one level below its parent, which is in the tree too |
| `ProcessTree.RecordTree` | crates/buzz-acp/src/browser_mcp.rs:409-415 | Records exactly the processes seen so far, each with the identity and depth of its first sighting |
| `ProcessTree.ActiveByDepth` | crates/buzz-acp/src/browser_mcp.rs:417-429 | Lists, deepest first and once each, exactly the recorded processes that the snapshot shows alive with their recorded identity |
| `ProcessTree.Survey` | crates/buzz-acp/src/browser_mcp.rs:405-429 | One snapshot recorded and surveyed, with earlier signals still justified |
| `ProcessTree.SignalAll` | crates/buzz-acp/src/browser_mcp.rs:436-444 | Signals the active processes in order, each once, up to the first whose pid is too large or whose kill fails for another reason than a vanished process, and none behind it |
| `ProcessTree.RunRound` | crates/buzz-acp/src/browser_mcp.rs:426-448 | Succeeds exactly on an empty list, and otherwise signals it and gives up exactly once the kill deadline has passed |
| `ProcessTree.NextRound` | crates/buzz-acp/src/browser_mcp.rs:404-450 | One iteration of the loop, from its snapshot on |
| `ProcessTree.FullRound` | crates/buzz-acp/src/browser_mcp.rs:409-448 | A round with a snapshot to go by ends the loop, or leaves everything in place for the next |
| `ProcessTree.RunDecides` | crates/buzz-acp/src/browser_mcp.rs:404-450 | Which way the loop ends is decided by its rounds alone: a missing snapshot, an absent root, nothing left alive, a failed signal, a deadline passed with a process alive; and it goes on only through rounds with something alive, no failed signal and time left |
| `ProcessTree.TerminateTree` | crates/buzz-acp/src/browser_mcp.rs:395-451 | Over all iterations a signal goes only to a process whose current identity is the one recorded when it was first seen under the root, in each round once and by falling recorded depth, hard exactly after the grace; no active process is spared; and success means no recorded process is active in the last snapshot |
| `ProcessTree.ChildFirstIff` | crates/buzz-acp/src/browser_mcp.rs:417-444 | Of a child and its parent that are both active in a round, the child is signalled first in every order the round may take exactly when it was recorded deeper |
| `ProcessTree.SignalOrder` | crates/buzz-acp/src/browser_mcp.rs:429-444 | Among the signals of a round the one recorded deeper comes first |
| `ProcessTree.RecordedDeeperIff` | crates/buzz-acp/src/browser_mcp.rs:409-415 | A child first seen under a parent was recorded deeper exactly when that parent had not moved up since its own first sighting |
| `ProcessTree.RecordedTogether` | crates/buzz-acp/src/browser_mcp.rs:409-415 | A child and parent first recorded in one snapshot are recorded one level apart |
| `ProcessTree.SignalsOrphanFirst` | crates/buzz-acp/src/browser_mcp.rs:395-451 | A run of the loop that signals a parent before its child: an orphan adopted by the root keeps its old depth and then starts a process |
| `ProcessTree.SuccessIff` | crates/buzz-acp/src/browser_mcp.rs:417-428 | After a completed round the loop succeeds exactly when no recorded process is active in its snapshot |
| `ProcessTree.SignalledIff` | crates/buzz-acp/src/browser_mcp.rs:409-444 | A live process of the tree of a completed round is signalled in it exactly when its pid was first recorded with the identity it has now |
| `ProcessTree.SucceedsOverReusedPid` | crates/buzz-acp/src/browser_mcp.rs:395-451 | A run that succeeds while a process that was under the root with a reused pid lives, never signalled |
| `ProcessTree.SuccessLeaves` | crates/buzz-acp/src/browser_mcp.rs:417-428 | Of a process in the last tree, success says that it is a zombie or bears a pid recorded earlier under another identity |
| `ProcessTree.KnownOnlyGrows` | crates/buzz-acp/src/browser_mcp.rs:409-415 | Records are never changed by later snapshots |
| `Subscriptions.ExtendKinds` | crates/buzz-acp/src/config.rs:1445-1451 | Adds the kinds not yet present, in order |
| `Subscriptions.MergeForChannel` | crates/buzz-acp/src/config.rs:1434-1455 | Computes the merge of the rules that apply to a channel |
| `Subscriptions.TargetChannels` | crates/buzz-acp/src/config.rs:1389-1397 | Gives exactly the discovered channels that the override names, or all without one |
| `Subscriptions.ResolveChannelFilters` | crates/buzz-acp/src/config.rs:1380-1471 | The static resolver subscribes to discovered channels only, each with the filter that the shared specification gives it |
| `Subscriptions.ResolveDynamicChannelFilter` | crates/buzz-acp/src/config.rs:1482-1560 | The dynamic resolver gives the same answer for every channel, by its own loop |
| `Subscriptions.MergeMeaning` | crates/buzz-acp/src/config.rs:1434-1455 | The merge takes a kind exactly when some applying rule does, all kinds exactly when one has no list, and needs a mention exactly when all do |
| `Subscriptions.FilterCoversRules` | crates/buzz-acp/src/config.rs:1380-1471 | In rule mode a channel is subscribed to exactly when a rule applies, and its filter admits every event an applying rule wants |
| `Subscriptions.RuleFilterAdmits` | crates/buzz-acp/src/config.rs:1432-1471 | Exactly which events the merged filter admits: a kind that some applying rule takes, and a mention unless some applying rule needs none |
| `Subscriptions.PlainFilterAdmits` | crates/buzz-acp/src/config.rs:1389-1430 | Without rules only an override leaves a channel out; mention mode admits the configured or the three default kinds with a mention unless switched off, the other mode the configured kinds or all |
| `Subscriptions.TagMentions` | crates/buzz-acp/src/filter.rs:387-395 | A `p` tag with the agent's key, anywhere among the tags, is a mention |
| `Subscriptions.MentionIsTag` | crates/buzz-acp/src/filter.rs:387-395 | Nothing else is |
| `EventMatching.RuleTable.constructor` | crates/buzz-acp/src/filter.rs:336-341 | A new table has no timeouts |
| `EventMatching.RuleTable.MatchEvent` | crates/buzz-acp/src/filter.rs:368-460 | Computes the rule-by-rule specification and updates the counters in place |
| `EventMatching.FirstUnskippedDecides` | crates/buzz-acp/src/filter.rs:368-460 | The result is the first rule not skipped, and only if it accepts: an error, a timeout or a disabled filter there means no match at all |
| `EventMatching.MatchFits` | crates/buzz-acp/src/filter.rs:368-460 | A match names a rule whose scope, kinds, mention and filter all fit the event, under the rule's tag or else its name |
| `EventMatching.CatchAllTakes` | crates/buzz-acp/src/filter.rs:368-460 | A rule that asks for nothing takes every event that gets to it |
| `EventMatching.EvaluatesExactly` | crates/buzz-acp/src/filter.rs:368-460 | An event evaluates the filters of exactly the rules it gets to, once each, and moves no other counter |
| `EventMatching.SubscriptionIsSound` | crates/buzz-acp/src/filter.rs:63-73 | Whatever the matcher accepts on a channel, the merged subscription of that channel admits, as long as parsing a channel id undoes printing it |
| `EventMatching.MatchKeepsCounters` | crates/buzz-acp/src/filter.rs:368-460 | One event keeps each counter at the number of timeouts in its filter's history behind the last evaluation that completed, and never moves a counter of five |
| `EventMatching.AfterCompletedIsLast` | crates/buzz-acp/src/filter.rs:368-460 | The part of the history that counts starts right behind the last completed evaluation and holds none |
| `EventMatching.CountKeepsUp` | crates/buzz-acp/src/filter.rs:368-460 | Resetting on completion, adding on timeout and leaving on error keeps up with that number |
| `EventMatching.RunsKeepCounters` | crates/buzz-acp/src/filter.rs:336-460 | Over every run of events the counters stay so, between zero and five, and five is final |
| `EventMatching.EveryRun` | crates/buzz-acp/src/filter.rs:336-460 | So they are after every sequence of events that a new rule table has seen |
| `EventMatching.DisabledMatchesNothing` | crates/buzz-acp/src/filter.rs:341-460 | Once a rule is disabled, every later event that gets to its filter matches nothing |
| `PoolLifecycle.RetryDelayIsBackoff` | crates/buzz-acp/src/pool_lifecycle.rs:123-132 | The saturating shift is min(300, 5 * 2^(n-1)) for every 32-bit attempt number from one |
| `PoolLifecycle.CappedBackoff` | crates/buzz-acp/src/pool_lifecycle.rs:123-132 | Capping the attempt number does not change its delay |
| `PoolLifecycle.StartsIff` | crates/buzz-acp/src/pool_lifecycle.rs:37-58 | A wake starts exactly when work is pending and the pool is listening or its retry is due, with the next attempt number |
| `PoolLifecycle.CompletesIff` | crates/buzz-acp/src/pool_lifecycle.rs:99-120 | A result is accepted exactly under the number of the wake in progress, and a failure is due again after its backoff |
| `PoolLifecycle.TakesIff` | crates/buzz-acp/src/pool_lifecycle.rs:60-68 | A pool is handed over exactly when one is ready, and the lifecycle listens again |
| `PoolLifecycle.RunOk` | crates/buzz-acp/src/pool_lifecycle.rs:37-132 | Over every run with a clock that never goes back: starts and accepted completions alternate with matching tokens; the k-th start since the last success comes no earlier than the first plus the delays of the failures between; and pools taken are the successes, less one while ready |
| `PoolLifecycle.EveryRun` | crates/buzz-acp/src/pool_lifecycle.rs:28-132 | So is every run of a pool that starts out listening |
| `PoolLifecycle.Lifecycle.constructor` | crates/buzz-acp/src/pool_lifecycle.rs:28-30 | Starts out listening |
| `PoolLifecycle.Lifecycle.StartWakeIfDue` | crates/buzz-acp/src/pool_lifecycle.rs:37-58 | Refines the start transition |
| `PoolLifecycle.Lifecycle.Complete` | crates/buzz-acp/src/pool_lifecycle.rs:99-120 | Refines the completion transition: a token that is not the current one changes nothing |
| `PoolLifecycle.Lifecycle.Cancel` | crates/buzz-acp/src/pool_lifecycle.rs:91-93 | A cancel is a failed completion |
| `PoolLifecycle.Lifecycle.Take` | crates/buzz-acp/src/pool_lifecycle.rs:60-68 | Hands the pool over once |
| `AudioFramer.FeedConserves` | desktop/public/worklet.js:34-64 | A block is kept whole exactly when it is no longer than the room left plus one frame; frames posted are full, and nothing posted before changes |
| `AudioFramer.RunsConserve` | desktop/public/worklet.js:34-64 | With blocks of at most one frame, the posted frames followed by the buffered samples are all samples since the reset, and less than a frame is held back |
| `AudioFramer.FramesAreSlices` | desktop/public/worklet.js:34-64 | So the k-th frame is the k-th slice of 960 samples |
| `AudioFramer.SttTapProcessor.constructor` | desktop/public/worklet.js:19-32 | Starts transmitting with an empty buffer |
| `AudioFramer.SttTapProcessor.OnMessage` | desktop/public/worklet.js:27-31 | Gating changes nothing else |
| `AudioFramer.SttTapProcessor.Append` | desktop/public/worklet.js:46-48 | Copies samples behind those buffered |
| `AudioFramer.SttTapProcessor.Post` | desktop/public/worklet.js:50-54 | Hands the full buffer over and continues in a fresh one, so a posted frame is never written again |
| `AudioFramer.SttTapProcessor.Process` | desktop/public/worklet.js:34-64 | Refines the framing of one block, the reset when gated, and the error on an oversized leftover |
| `AudioFramer.CopyInto` | desktop/public/worklet.js:47-59 | Overwrites exactly the given range of the buffer |
| `DisplayNames.NormaliseIsIdempotent` | crates/buzz-acp/src/config.rs:679-698 | A normalised name has only clean characters and single inner spaces, at most eighty characters, and is its own normal form |
| `DisplayNames.CollapseKeeps` | crates/buzz-acp/src/config.rs:679-698 | Collapsing loses no clean character and changes no order |
| `DisplayNames.NormaliseKeepsPrefix` | crates/buzz-acp/src/config.rs:679-698 | A name keeps the first clean characters of the original, all of them unless it was cut |
| `DisplayNames.WordsSplit` | crates/buzz-acp/src/config.rs:679-698 | White space separates words wherever it stands |
| `DisplayNames.CollapseWords` | crates/buzz-acp/src/config.rs:679-698 | The words of the collapsed text are the stripped words of the original |
| `DisplayNames.NormaliseCuts` | crates/buzz-acp/src/config.rs:679-698 | A name is the collapsed text, cut at eighty characters only when it is longer, and one earlier when a space would end it |
| `DisplayNames.TitleNormalForm` | crates/buzz-acp/src/config.rs:679-698 | A session title is non-empty and in normal form, and there is none only for a text without any clean character |
| `DisplayNames.GitNameNormalForm` | crates/buzz-acp/src/git.rs:195-213 | A git name is in normal form and keeps a character that git does not strip; an uncut name is refused only when it had none |
| `DisplayNames.GitNameIsSafe` | crates/buzz-acp/src/git.rs:133-213 | A git name has no angle bracket, control character, zero-width or direction mark, and has a character besides those git strips |
| `DisplayNames.LimitHoldsIff` | crates/buzz-acp/src/config.rs:736-756 | The agent's name survives in full, and the limit holds exactly when the name alone is within it |
| `DisplayNames.ChannelShownIff` | crates/buzz-acp/src/config.rs:736-756 | The channel follows the separator and a hash exactly when it has a title and there is room for a character of it, cut only when it does not fit |
| `DisplayNames.ScopedTitleWhole` | crates/buzz-acp/src/config.rs:718-734 | With room for everything a thread's title is the agent, the channel and the root |
| `DisplayNames.ScopedTitleEndsWithRoot` | crates/buzz-acp/src/config.rs:718-734 | A thread's title ends with the separator and the first eight characters of its root |
| `DisplayNames.ScopedTitleBoundIff` | crates/buzz-acp/src/config.rs:711-756 | A title is within eighty characters exactly when it has a root or the agent's name is |

## Left out

- JSON text parsing and printing, UUID parsing, evalexpr filters, Nostr signatures and URL handling: parsed values, `parse`/`show` functions and filter verdicts are inputs.
- Process spawning, pipes, sockets, `ps` and `taskkill` output, temporary directories and the Windows cleanup path: snapshots, lines, kill results and clock readings are inputs.
- AcpClients.AcpClient.WriteLine: a line is written whole, fails, or is still awaited when its future is dropped; a write that times out after part of a line is not modelled.
- Fairness of `select!` and liveness in general: scripts cover every order of arms, so only safety is stated.
- Wrap-around of the 64-bit request id counter, mutex poisoning, and collisions of random request ids.
- Timeouts around `send_request`: a timeout is a script that stops; which of its two phases expired is not reported.
- Usage and cost tracking, stop reasons, observer events, session-title transport, model catalogue lookup and command-line parsing: each is settled by one branch or dominated by external calls.
- `sanitize_context`, `safe_permission_details` and `sensitive_key` of `permission.rs`: simple structural bounds around the redactors that are modelled.
- Clones of a rule share their timeout counter in the source; the rule table here owns one counter per rule.
- Test listing, nextest metadata and reporting in the test-discovery script, and everything but the RESP codec in the relay benchmark.
- The relay, admin, media, mobile and web code of the repository: mostly database, network and user-interface plumbing.
- DeepMerge.DeepMergeInto: returns the merged map instead of updating it through a reference; no two parts of a configuration share structure, so only the update in place is not captured.
- ModuleRanges.FindModuleRanges: the regular expression classes for word characters and white space are parameters, because Python's depend on its Unicode tables.
- Resp.Stream.TakeReply: does not model Python's limit on the number of digits of an integer.
- AudioFramer.SttTapProcessor.Process: samples are real numbers, so the rounding to 32-bit floats of the typed array is not modelled.
