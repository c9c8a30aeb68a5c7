/** The ACP client's read loops, prompt and cancel paths as pure transitions.

    A run of a loop is driven by a script: one `Input` per loop iteration, holding
    the clock readings taken in that iteration, the arm that `select!` chose, and how
    a write or a permission decision awaited in that iteration came out. Every
    interleaving of agent lines, steer requests and deadlines is some script. A
    script that ends, or that leaves an await unfinished, stands for a future that
    is suspended there and may be dropped by its caller. */
module AcpProtocol {
  import opened Json
  import opened Options
  import opened AcpMessages

  // ---------------------------------------------------------------- Messages

  /** The fixed idle allowance and the floor of the drain, in seconds. */
  const CLEANUP_GRACE: nat := 30

  /** Requests the client sends. `GooseSteer` is `_goose/unstable/session/steer` and
      `AcpSteer` is `_session/steering`. */
  datatype Call =
    | Prompt(session: string, blocks: seq<string>)
    | GooseSteer(session: string, expectedRunId: string, blocks: seq<string>)
    | AcpSteer(session: string, blocks: seq<string>)
    | Other(name: string, params: Json)

  /** Lines successfully written to the agent. A permission reply carries the ordinal
      of the incoming request it answers, because agents may reuse an id. */
  datatype Wire =
    | Request(id: nat, call: Call)
    | CancelNotice(session: string)
    | PermissionReply(ordinal: nat, replyTo: Json, selected: Option<string>)
    | MethodNotFound(replyTo: Json, name: string)

  datatype Transport = Goose | AcpExtension

  /** `ticket` names the one-shot channel on which the sender awaits its ack. */
  datatype SteerRequest = SteerRequest(ticket: nat, blocks: seq<string>)

  datatype SteerError =
    | ExpectedRunIdMissing
    | TransportFailed
    | AgentError(code: int, error: Json)
    | OutcomeRejected(reported: Option<Json>)

  datatype SteerAck = Success(session: string) | Failure(error: SteerError) | PromptCompletedNeutral

  datatype PermissionOutcome = Approved | Denied | TimedOut | Unavailable

  predicate IsResponse(msg: Message, id: nat) {
    msg.id == Some(Int(id)) && msg.verb.NoMethod?
  }

  /** A request from the agent whose method this client does not implement. */
  predicate IsUnknownRequest(msg: Message) {
    msg.id.Some? && msg.verb.UnknownMethod?
  }

  // ------------------------------------------------------------- Environment

  datatype Line = Closed | TooLong | Broken | Blank | Garbage | Parsed(msg: Message)

  datatype Arm = Read(line: Line) | Steer(req: SteerRequest) | Sleep

  /** `Stalled` is a write still awaited when the future is dropped. */
  datatype WriteResult = Written | Failed | Stalled

  datatype Decision = Decided(outcome: PermissionOutcome) | Undecided

  /** One iteration: `top` is the clock at the pre-select check, `woke` once the arm
      has fired and `later` at any further reading in the iteration. */
  datatype Input = Input(top: nat, arm: Arm, woke: nat, later: nat,
                         write: WriteResult, decision: Decision)

  // ------------------------------------------------------------------- State

  datatype PendingPermission = PendingPermission(ordinal: nat, id: Json)

  /** The client's fields, the lines it has written, the number of permission requests it
      has received and the results of its `initialize` calls. `steerRx` says whether a receiver is installed. */
  datatype Client = Client(
    nextId: nat,
    pendingPermission: Option<PendingPermission>,
    permissionResponded: bool,
    lastPromptId: Option<nat>,
    currentHardDeadline: Option<nat>,
    activeRunId: Option<string>,
    steeringSupported: bool,
    steerRx: bool,
    written: seq<Wire>,
    permissionsSeen: nat,
    initialized: seq<Json>)

  /** A freshly spawned client. */
  function Spawned(): Client {
    Client(0, None, false, None, None, None, false, false, [], 0, [])
  }

  datatype Params = Params(session: string, expectedId: nat, idleTimeout: nat, maxDuration: nat)

  datatype PendingSteer = PendingSteer(id: nat, transport: Transport, ticket: nat)

  /** A steer request taken from the channel, with the id and transport it was
      written under when the write was attempted. */
  datatype Taken = Taken(ticket: nat, sent: Option<Sent>)
  datatype Sent = Sent(id: nat, transport: Transport)

  /** An ack sent, with the response that decided it, if any, and the clock reading
      taken when that response said the steer reached the running turn. */
  datatype Ack = Ack(ticket: nat, ack: SteerAck, response: Option<Message>, injectedAt: Option<nat>)

  datatype Exit =
    | Returned(result: Json)
    | AgentFailed(error: Json)
    | IdleTimeout
    | HardTimeout(silence: nat)
    | AgentExited
    | LineTooLong
    | ReadFailed
    | WriteFailed
    | PermissionMissingId
    | PermissionMissingOptions
    | Suspended

  /** The loop's locals, plus the history of this loop: messages parsed, steer
      requests taken and acks sent. */
  datatype Loop = Loop(
    client: Client,
    rx: bool,
    pending: Option<PendingSteer>,
    idleDeadline: nat,
    hardDeadline: nat,
    lastActivity: nat,
    read: seq<Message>,
    taken: seq<Taken>,
    acks: seq<Ack>,
    exit: Option<Exit>)

  // ---------------------------------------------------- Handlers of messages

  /** The id of the first option of a kind, when that option carries one. */
  function FindOption(options: seq<PermissionOption>, kind: OptionKind): Option<string> {
    if options == [] then None
    else if options[0].kind == kind then options[0].optionId
    else FindOption(options[1..], kind)
  }

  function SelectedKind(outcome: PermissionOutcome): OptionKind {
    if outcome.Approved? then AllowOnce else RejectOnce
  }

  /** Answer one permission request; the exit is `None` when the loop goes on. */
  function OnPermission(c: Client, id: Option<Json>, options: Option<seq<PermissionOption>>,
                        decision: Decision, write: WriteResult): (Client, Option<Exit>) {
    match id
    case None => (c, Some(PermissionMissingId))
    case Some(id) =>
      var ordinal := c.permissionsSeen;
      var waiting := c.(pendingPermission := Some(PendingPermission(ordinal, id)),
                        permissionResponded := false,
                        permissionsSeen := ordinal + 1);
      if options.None? then (waiting, Some(PermissionMissingOptions))
      else match decision
        case Undecided => (waiting, Some(Suspended))
        case Decided(outcome) =>
          var reply := PermissionReply(ordinal, id, FindOption(options.value, SelectedKind(outcome)));
          match write
          case Stalled => (waiting, Some(Suspended))
          case Failed => (waiting, Some(WriteFailed))
          case Written =>
            (waiting.(written := c.written + [reply],
                      permissionResponded := true,
                      pendingPermission := None), None)
  }

  /** The goose run id after an update. */
  function RunIdAfter(runId: Option<string>, update: Update): Option<string> {
    if update.RunId? then update.run else runId
  }

  /** Notifications and requests from the agent; shared by both loops. */
  function Dispatch(c: Client, msg: Message, decision: Decision, write: WriteResult): (Client, Option<Exit>) {
    match msg.verb
    case NoMethod => (c, None)
    case NotAString => (c, None)
    case SessionUpdate(update) => (c.(activeRunId := RunIdAfter(c.activeRunId, update)), None)
    case GooseUpdate => (c, None)
    case RequestPermission(options) => OnPermission(c, msg.id, options, decision, write)
    case UnknownMethod(name) =>
      match msg.id
      case None => (c, None)
      case Some(id) =>
        match write
        case Written => (c.(written := c.written + [MethodNotFound(id, name)]), None)
        case Failed => (c, Some(WriteFailed))
        case Stalled => (c, Some(Suspended))
  }

  // ----------------------------------------------------- The idle-aware loop

  /** Leave the loop, releasing an in-flight steer first. */
  function Leave(s: Loop, exit: Exit): Loop {
    match s.pending
    case None => s.(exit := Some(exit))
    case Some(steer) =>
      s.(pending := None,
         acks := s.acks + [Ack(steer.ticket, PromptCompletedNeutral, None, None)],
         exit := Some(exit))
  }

  function NextDeadline(s: Loop): nat {
    if s.idleDeadline < s.hardDeadline then s.idleDeadline else s.hardDeadline
  }

  /** `now` is read once more for the silence of a hard timeout. */
  function TimeOut(s: Loop, now: nat): Loop {
    if s.idleDeadline < s.hardDeadline then Leave(s, IdleTimeout)
    else Leave(s, HardTimeout(if now < s.lastActivity then 0 else now - s.lastActivity))
  }

  /** The request a steer is written as, chosen by the freshest run id. */
  function SelectSteer(c: Client, session: string, blocks: seq<string>): Option<(Transport, Call)> {
    match c.activeRunId
    case Some(run) => Some((Goose, GooseSteer(session, run, blocks)))
    case None => if c.steeringSupported then Some((AcpExtension, AcpSteer(session, blocks))) else None
  }

  function TakeSteer(p: Params, s: Loop, req: SteerRequest, write: WriteResult): Loop {
    match SelectSteer(s.client, p.session, req.blocks)
    case None =>
      s.(taken := s.taken + [Taken(req.ticket, None)],
         acks := s.acks + [Ack(req.ticket, Failure(ExpectedRunIdMissing), None, None)])
    case Some((transport, call)) =>
      var id := s.client.nextId;
      var sent := s.(taken := s.taken + [Taken(req.ticket, Some(Sent(id, transport)))],
                     client := s.client.(nextId := id + 1));
      match write
      case Written =>
        sent.(client := sent.client.(written := s.client.written + [Request(id, call)]),
              pending := Some(PendingSteer(id, transport, req.ticket)))
      case Failed =>
        sent.(acks := s.acks + [Ack(req.ticket, Failure(TransportFailed), None, None)])
      case Stalled =>
        // The request and its ack channel are held by the dropped arm.
        sent.(pending := Some(PendingSteer(id, transport, req.ticket)), exit := Some(Suspended))
  }

  /** Whether a response means that the steer reached the turn this loop awaits. */
  predicate Injects(transport: Transport, msg: Message) {
    msg.error.None? && (transport.Goose? || msg.outcome.Injected?)
  }

  function SteerAckFor(session: string, transport: Transport, msg: Message): SteerAck {
    match msg.error
    case Some(error) => Failure(AgentError(ErrorCode(error, -1), error))
    case None =>
      if transport.Goose? then Success(session)
      else match msg.outcome
        case Injected => Success(session)
        case StartedNewTurn => Success(session)
        case Unrecognised(reported) => Failure(OutcomeRejected(reported))
  }

  function OnSteerResponse(p: Params, s: Loop, steer: PendingSteer, msg: Message, now: nat): Loop {
    var injected := Injects(steer.transport, msg);
    var deadline := now + p.maxDuration;
    var acked :=
      s.(pending := None,
         acks := s.acks + [Ack(steer.ticket, SteerAckFor(p.session, steer.transport, msg), Some(msg),
                               if injected then Some(now) else None)]);
    if injected && deadline > s.hardDeadline then
      acked.(hardDeadline := deadline,
             client := s.client.(currentHardDeadline := Some(deadline)))
    else acked
  }

  /** Any valid message counts as activity. */
  function Hear(p: Params, s: Loop, msg: Message, now: nat): Loop {
    s.(idleDeadline := now + p.idleTimeout, lastActivity := now, read := s.read + [msg])
  }

  /** The response to the awaited request ends the loop. */
  function OnResponse(s: Loop, msg: Message): Loop {
    match msg.error
    case Some(error) => Leave(s, AgentFailed(error))
    case None => Leave(s, Returned(msg.result))
  }

  /** Any other message is dispatched; a tool call restarts the idle clock once more. */
  function OnOther(p: Params, s: Loop, x: Input, msg: Message): Loop {
    var (client, exit) := Dispatch(s.client, msg, x.decision, x.write);
    var s := s.(client := client, exit := exit);
    if msg.verb == SessionUpdate(ToolCall) then
      s.(idleDeadline := x.later + p.idleTimeout, lastActivity := x.later)
    else s
  }

  /** A steer's response is recognised before the prompt's. */
  function OnMessage(p: Params, s: Loop, x: Input, msg: Message): Loop {
    var heard := Hear(p, s, msg, x.woke);
    if s.pending.Some? && IsResponse(msg, s.pending.value.id) then
      OnSteerResponse(p, heard, s.pending.value, msg, x.later)
    else if IsResponse(msg, p.expectedId) then OnResponse(heard, msg)
    else OnOther(p, heard, x, msg)
  }

  /** One iteration of the loop. The steer arm is disabled without a receiver or
      while a steer is in flight, and the sleep arm cannot fire early. */
  function Step(p: Params, s: Loop, x: Input): Loop {
    if x.top >= NextDeadline(s) then TimeOut(s, x.later)
    else match x.arm
      case Steer(req) => if s.rx && s.pending.None? then TakeSteer(p, s, req, x.write) else s
      case Sleep => if x.woke >= NextDeadline(s) then TimeOut(s, x.later) else s
      case Read(line) =>
        match line
        case Closed => Leave(s, AgentExited)
        case TooLong => Leave(s, LineTooLong)
        case Broken => Leave(s, ReadFailed)
        case Blank => s
        case Garbage => s
        case Parsed(msg) => OnMessage(p, s, x, msg)
  }

  /** The loop on entry: the client's steer receiver is taken into a local. */
  function Enter(c: Client, p: Params, hardDeadline: nat, now: nat): Loop {
    Loop(c.(steerRx := false), c.steerRx, None, now + p.idleTimeout, hardDeadline, now, [], [], [], None)
  }

  function RunLoop(p: Params, s: Loop, script: seq<Input>): Loop
    decreases |script|
  {
    if script == [] || s.exit.Some? then s
    else RunLoop(p, Step(p, s, script[0]), script[1..])
  }

  // ------------------------------------------------ The loop without deadlines

  /** State of `read_until_response`. */
  datatype Plain = Plain(client: Client, read: seq<Message>, exit: Option<Exit>)

  function PlainStep(expectedId: nat, s: Plain, x: Input): Plain {
    match x.arm
    case Steer(_) => s
    case Sleep => s
    case Read(line) =>
      match line
      case Closed => s.(exit := Some(AgentExited))
      case TooLong => s.(exit := Some(LineTooLong))
      case Broken => s.(exit := Some(ReadFailed))
      case Blank => s
      case Garbage => s
      case Parsed(msg) =>
        var s := s.(read := s.read + [msg]);
        if IsResponse(msg, expectedId) then
          match msg.error
          case Some(error) => s.(exit := Some(AgentFailed(error)))
          case None => s.(exit := Some(Returned(msg.result)))
        else
          var (client, exit) := Dispatch(s.client, msg, x.decision, x.write);
          s.(client := client, exit := exit)
  }

  function RunPlain(expectedId: nat, s: Plain, script: seq<Input>): Plain
    decreases |script|
  {
    if script == [] || s.exit.Some? then s
    else RunPlain(expectedId, PlainStep(expectedId, s, script[0]), script[1..])
  }

  // ----------------------------------------------------- Prompt and cancel

  /** Clock readings and results of a prompt: `start` fixes the hard deadline, `write`
      is the prompt's own write and `enter` is the reading on entering the loop. */
  datatype PromptEnv = PromptEnv(start: nat, write: WriteResult, enter: nat, script: seq<Input>)

  function PromptParams(c: Client, session: string, idleTimeout: nat, maxDuration: nat): Params {
    Params(session, c.nextId, idleTimeout, maxDuration)
  }

  /** The client once the prompt is about to be written. */
  function PromptStarted(c: Client, maxDuration: nat, env: PromptEnv): Client {
    c.(currentHardDeadline := Some(env.start + maxDuration),
       lastPromptId := Some(c.nextId),
       nextId := c.nextId + 1)
  }

  /** The client once the prompt has been written. */
  function PromptSent(c: Client, session: string, blocks: seq<string>, maxDuration: nat, env: PromptEnv): Client {
    PromptStarted(c, maxDuration, env).(written := c.written + [Request(c.nextId, Prompt(session, blocks))])
  }

  /** The read loop that a successfully written prompt runs. */
  function PromptLoop(c: Client, session: string, blocks: seq<string>,
                      idleTimeout: nat, maxDuration: nat, env: PromptEnv): Loop {
    var p := PromptParams(c, session, idleTimeout, maxDuration);
    RunLoop(p, Enter(PromptSent(c, session, blocks, maxDuration, env), p, env.start + maxDuration, env.enter),
            env.script)
  }

  function ClearTurn(c: Client): Client {
    c.(lastPromptId := None, currentHardDeadline := None)
  }

  /** After the loop, a timeout or a suspended loop keeps the turn for the cancel path. */
  function Settle(c: Client, exit: Option<Exit>): Client {
    match exit
    case None => c
    case Some(Suspended) => c
    case Some(IdleTimeout) => c
    case Some(HardTimeout(_)) => c
    case _ => ClearTurn(c)
  }

  function RunPrompt(c: Client, session: string, blocks: seq<string>,
                     idleTimeout: nat, maxDuration: nat, env: PromptEnv): (Client, Option<Exit>) {
    match env.write
    case Failed => (ClearTurn(PromptStarted(c, maxDuration, env)), Some(WriteFailed))
    case Stalled => (PromptStarted(c, maxDuration, env), Some(Suspended))
    case Written =>
      var s := PromptLoop(c, session, blocks, idleTimeout, maxDuration, env);
      (Settle(s.client, s.exit), s.exit)
  }

  /** Readings and results of a cancel: `start` bounds the drain, `reply` and `notice`
      are its two writes, `measure` is where the remaining time is computed. */
  datatype CancelEnv = CancelEnv(start: nat, reply: WriteResult, notice: WriteResult,
                                 measure: nat, enter: nat, script: seq<Input>)

  datatype CancelExit = NoPrompt | Drained(exit: Option<Exit>) | DrainTimeout(grace: nat)

  /** The deadline `cancel_with_cleanup` drains until. */
  function DrainDeadline(c: Client, start: nat): nat {
    match c.currentHardDeadline
    case Some(d) => if d > start + CLEANUP_GRACE then d else start + CLEANUP_GRACE
    case None => start + CLEANUP_GRACE
  }

  /** Answer a permission request that is still pending with "cancelled". */
  function CancelPermission(c: Client, write: WriteResult): (Client, Option<Exit>) {
    match c.pendingPermission
    case None => (c, None)
    case Some(pending) =>
      var cleared := c.(pendingPermission := None, permissionResponded := false);
      if c.permissionResponded then (cleared, None)
      else match write
        case Failed => (c, Some(WriteFailed))
        case Stalled => (c, Some(Suspended))
        case Written =>
          (cleared.(written := c.written + [PermissionReply(pending.ordinal, pending.id, None)]), None)
  }

  function DrainParams(session: string, promptId: nat, hardDeadline: nat, measure: nat): Params {
    Params(session, promptId, CLEANUP_GRACE, if hardDeadline < measure then 0 else hardDeadline - measure)
  }

  /** `cancel_with_cleanup_until`, on a client whose deadline has been taken. */
  function CancelUntil(c: Client, session: string, hardDeadline: nat, env: CancelEnv): (Client, CancelExit) {
    match c.lastPromptId
    case None => (c, NoPrompt)
    case Some(promptId) =>
      var (answered, early) := CancelPermission(c.(lastPromptId := None), env.reply);
      if early.Some? then (answered, Drained(early))
      else match env.notice
        case Failed => (answered, Drained(Some(WriteFailed)))
        case Stalled => (answered, Drained(Some(Suspended)))
        case Written =>
          var p := DrainParams(session, promptId, hardDeadline, env.measure);
          var s := RunLoop(p, DrainStart(answered, session, promptId, hardDeadline, env), env.script);
          (s.client, Drained(s.exit))
  }

  /** The drain loop on entry, with the cancel notice on the wire. */
  function DrainStart(c: Client, session: string, promptId: nat, hardDeadline: nat, env: CancelEnv): Loop {
    Enter(c.(written := c.written + [CancelNotice(session)]),
          DrainParams(session, promptId, hardDeadline, env.measure), hardDeadline, env.enter)
  }

  function Cancel(c: Client, session: string, env: CancelEnv): (Client, CancelExit) {
    CancelUntil(c.(currentHardDeadline := None), session, DrainDeadline(c, env.start), env)
  }

  function CancelGrace(c: Client, session: string, grace: nat, env: CancelEnv): (Client, CancelExit) {
    var (c', exit) := CancelUntil(c.(currentHardDeadline := None), session, env.start + grace, env);
    match exit
    case Drained(Some(HardTimeout(_))) => (c', DrainTimeout(grace))
    case _ => (c', exit)
  }

  /** `send_request`: a timeout of either phase drops the inner future where it stands. */
  function SendRequest(c: Client, call: Call, write: WriteResult, script: seq<Input>): (Client, Option<Exit>) {
    var id := c.nextId;
    var c := c.(nextId := id + 1);
    match write
    case Failed => (c, Some(WriteFailed))
    case Stalled => (c, Some(Suspended))
    case Written =>
      var s := RunPlain(id, Plain(c.(written := c.written + [Request(id, call)]), [], None), script);
      (s.client, s.exit)
  }

  /** `_meta.steering.supported` of an `initialize` result. */
  predicate Advertises(result: Json) {
    At(At(At(result, "_meta"), "steering"), "supported") == Bool(true)
  }

  /** The result of a successful `initialize` decides about the steering extension. */
  function Initialized(c: Client, result: Json): Client {
    c.(steeringSupported := Advertises(result), initialized := c.initialized + [result])
  }

  function Initialize(c: Client, params: Json, write: WriteResult, script: seq<Input>): (Client, Option<Exit>) {
    var (c', exit) := SendRequest(c, Other("initialize", params), write, script);
    match exit
    case Some(Returned(result)) => (Initialized(c', result), exit)
    case _ => (c', exit)
  }
}
