/** The client as an object: the read loops, prompt and cancel update its fields in place
    and are proved to compute exactly the transitions of `AcpProtocol`. */
module AcpClients {
  import opened Json
  import opened Options
  import opened AcpMessages
  import opened AcpProtocol

  class AcpClient {
    var nextId: nat
    var pendingPermission: Option<PendingPermission>
    var permissionResponded: bool
    var lastPromptId: Option<nat>
    var currentHardDeadline: Option<nat>
    var activeRunId: Option<string>
    var steeringSupported: bool
    var steerRx: bool
    var written: seq<Wire>
    var permissionsSeen: nat
    var initialized: seq<Json>

    function State(): Client
      reads this
    {
      Client(nextId, pendingPermission, permissionResponded, lastPromptId, currentHardDeadline,
             activeRunId, steeringSupported, steerRx, written, permissionsSeen, initialized)
    }

    constructor ()
      ensures State() == Spawned()
      ensures nextId == 0 && written == [] && !steerRx && !permissionResponded && !steeringSupported
    {
      nextId, permissionsSeen := 0, 0;
      pendingPermission, permissionResponded := None, false;
      lastPromptId, currentHardDeadline, activeRunId := None, None, None;
      steeringSupported, steerRx := false, false;
      written, initialized := [], [];
    }

    /** One line to the agent, atomically; `None` when it got through. */
    method WriteLine(line: Wire, result: WriteResult) returns (exit: Option<Exit>)
      modifies this`written
      ensures written == if result.Written? then old(written) + [line] else old(written)
      ensures exit == match result case Written => None case Failed => Some(WriteFailed) case Stalled => Some(Suspended)
    {
      match result
      case Written => written := written + [line]; exit := None;
      case Failed => exit := Some(WriteFailed);
      case Stalled => exit := Some(Suspended);
    }

    method HandlePermissionRequest(id: Option<Json>, options: Option<seq<PermissionOption>>,
                                   decision: Decision, write: WriteResult) returns (exit: Option<Exit>)
      modifies this
      ensures (State(), exit) == OnPermission(old(State()), id, options, decision, write)
    {
      if id.None? {
        return Some(PermissionMissingId);
      }
      var ordinal := permissionsSeen;
      permissionsSeen := permissionsSeen + 1;
      pendingPermission := Some(PendingPermission(ordinal, id.value));
      permissionResponded := false;
      if options.None? {
        return Some(PermissionMissingOptions);
      }
      if decision.Undecided? {
        return Some(Suspended);
      }
      var selected := FindOption(options.value, SelectedKind(decision.outcome));
      exit := WriteLine(PermissionReply(ordinal, id.value, selected), write);
      if exit.None? {
        permissionResponded := true;
        pendingPermission := None;
      }
    }

    /** Notifications and requests from the agent. */
    method HandleMessage(msg: Message, decision: Decision, write: WriteResult) returns (exit: Option<Exit>)
      modifies this
      ensures (State(), exit) == Dispatch(old(State()), msg, decision, write)
    {
      exit := None;
      match msg.verb
      case NoMethod =>
      case NotAString =>
      case GooseUpdate =>
      case SessionUpdate(update) =>
        if update.RunId? {
          activeRunId := update.run;
        }
      case RequestPermission(options) =>
        exit := HandlePermissionRequest(msg.id, options, decision, write);
      case UnknownMethod(name) =>
        if msg.id.Some? {
          exit := WriteLine(MethodNotFound(msg.id.value, name), write);
        }
    }

    method ReadUntilResponse(expectedId: nat, script: seq<Input>) returns (read: seq<Message>, exit: Option<Exit>)
      modifies this
      ensures Plain(State(), read, exit) == RunPlain(expectedId, Plain(old(State()), [], None), script)
    {
      read, exit := [], None;
      ghost var run := RunPlain(expectedId, Plain(State(), [], None), script);
      var i := 0;
      while i < |script| && exit.None?
        invariant 0 <= i <= |script|
        invariant RunPlain(expectedId, Plain(State(), read, exit), script[i..]) == run
      {
        ghost var before := Plain(State(), read, exit);
        var x := script[i];
        i := i + 1;
        assert script[i - 1..][1..] == script[i..];
        if x.arm.Read? {
          match x.arm.line
          case Closed => exit := Some(AgentExited);
          case TooLong => exit := Some(LineTooLong);
          case Broken => exit := Some(ReadFailed);
          case Blank =>
          case Garbage =>
          case Parsed(msg) =>
            read := read + [msg];
            if IsResponse(msg, expectedId) {
              exit := Some(if msg.error.Some? then AgentFailed(msg.error.value) else Returned(msg.result));
            } else {
              exit := HandleMessage(msg, x.decision, x.write);
            }
        }
        assert Plain(State(), read, exit) == PlainStep(expectedId, before, x);
      }
    }

    method RoundTrip(call: Call, write: WriteResult, script: seq<Input>) returns (exit: Option<Exit>)
      modifies this
      ensures (State(), exit) == SendRequest(old(State()), call, write, script)
    {
      var id := nextId;
      nextId := nextId + 1;
      exit := WriteLine(Request(id, call), write);
      if exit.None? {
        var read;
        read, exit := ReadUntilResponse(id, script);
      }
    }

    method InitializeAgent(params: Json, write: WriteResult, script: seq<Input>) returns (exit: Option<Exit>)
      modifies this
      ensures (State(), exit) == Initialize(old(State()), params, write, script)
    {
      exit := RoundTrip(Other("initialize", params), write, script);
      if exit.Some? && exit.value.Returned? {
        initialized := initialized + [exit.value.result];
        steeringSupported := Advertises(exit.value.result);
      }
    }
  }

  /** The idle-aware loop with its locals. */
  class ReadLoop {
    const client: AcpClient
    const p: Params
    var rx: bool
    var pending: Option<PendingSteer>
    var idleDeadline: nat
    var hardDeadline: nat
    var lastActivity: nat
    var read: seq<Message>
    var taken: seq<Taken>
    var acks: seq<Ack>
    var exit: Option<Exit>

    function State(): Loop
      reads this, client
    {
      Loop(client.State(), rx, pending, idleDeadline, hardDeadline, lastActivity, read, taken, acks, exit)
    }

    constructor (client: AcpClient, p: Params, hardDeadline: nat, now: nat)
      modifies client
      ensures this.client == client && this.p == p
      ensures State() == Enter(old(client.State()), p, hardDeadline, now)
    {
      this.client := client;
      this.p := p;
      rx := client.steerRx;
      client.steerRx := false;
      pending := None;
      idleDeadline := now + p.idleTimeout;
      this.hardDeadline := hardDeadline;
      lastActivity := now;
      read, taken, acks := [], [], [];
      exit := None;
    }

    /** Release an in-flight steer and leave. */
    method LeaveWith(e: Exit)
      modifies this
      ensures State() == Leave(old(State()), e)
    {
      if pending.Some? {
        acks := acks + [Ack(pending.value.ticket, PromptCompletedNeutral, None, None)];
        pending := None;
      }
      exit := Some(e);
    }

    method TimeOutAt(now: nat)
      modifies this
      ensures State() == TimeOut(old(State()), now)
    {
      if idleDeadline < hardDeadline {
        LeaveWith(IdleTimeout);
      } else {
        LeaveWith(HardTimeout(if now < lastActivity then 0 else now - lastActivity));
      }
    }

    method SteerArm(req: SteerRequest, write: WriteResult)
      requires pending.None? && exit.None?
      modifies this, client
      ensures State() == TakeSteer(p, old(State()), req, write)
    {
      var selected := SelectSteer(client.State(), p.session, req.blocks);
      if selected.None? {
        taken := taken + [Taken(req.ticket, None)];
        acks := acks + [Ack(req.ticket, Failure(ExpectedRunIdMissing), None, None)];
        return;
      }
      var (transport, call) := selected.value;
      var id := client.nextId;
      client.nextId := client.nextId + 1;
      taken := taken + [Taken(req.ticket, Some(Sent(id, transport)))];
      var failed := client.WriteLine(Request(id, call), write);
      if failed == Some(WriteFailed) {
        acks := acks + [Ack(req.ticket, Failure(TransportFailed), None, None)];
      } else {
        pending := Some(PendingSteer(id, transport, req.ticket));
        exit := failed;
      }
    }

    method SteerResponse(msg: Message, now: nat)
      requires pending.Some?
      modifies this, client
      ensures State() == OnSteerResponse(p, old(State()), old(pending.value), msg, now)
    {
      var steer := pending.value;
      pending := None;
      var injected := Injects(steer.transport, msg);
      if injected {
        var deadline := now + p.maxDuration;
        if deadline > hardDeadline {
          hardDeadline := deadline;
          client.currentHardDeadline := Some(deadline);
        }
      }
      acks := acks + [Ack(steer.ticket, SteerAckFor(p.session, steer.transport, msg), Some(msg),
                          if injected then Some(now) else None)];
    }

    method HandleLine(x: Input, msg: Message)
      requires exit.None?
      modifies this, client
      ensures State() == OnMessage(p, old(State()), x, msg)
    {
      idleDeadline := x.woke + p.idleTimeout;
      lastActivity := x.woke;
      read := read + [msg];
      if pending.Some? && IsResponse(msg, pending.value.id) {
        SteerResponse(msg, x.later);
      } else if IsResponse(msg, p.expectedId) {
        LeaveWith(if msg.error.Some? then AgentFailed(msg.error.value) else Returned(msg.result));
      } else {
        exit := client.HandleMessage(msg, x.decision, x.write);
        if msg.verb == SessionUpdate(ToolCall) {
          idleDeadline := x.later + p.idleTimeout;
          lastActivity := x.later;
        }
      }
    }

    method Iterate(x: Input)
      requires exit.None?
      modifies this, client
      ensures State() == Step(p, old(State()), x)
    {
      var next := if idleDeadline < hardDeadline then idleDeadline else hardDeadline;
      if x.top >= next {
        TimeOutAt(x.later);
        return;
      }
      match x.arm
      case Steer(req) =>
        if rx && pending.None? {
          SteerArm(req, x.write);
        }
      case Sleep =>
        if x.woke >= next {
          TimeOutAt(x.later);
        }
      case Read(line) =>
        match line
        case Closed => LeaveWith(AgentExited);
        case TooLong => LeaveWith(LineTooLong);
        case Broken => LeaveWith(ReadFailed);
        case Blank =>
        case Garbage =>
        case Parsed(msg) => HandleLine(x, msg);
    }

    /** Loop until an exit, or until the script leaves the loop suspended. */
    method Run(script: seq<Input>)
      requires exit.None?
      modifies this, client
      ensures State() == RunLoop(p, old(State()), script)
    {
      var i := 0;
      while i < |script| && exit.None?
        invariant 0 <= i <= |script|
        invariant RunLoop(p, State(), script[i..]) == RunLoop(p, old(State()), script)
      {
        assert script[i..][1..] == script[i + 1..];
        Iterate(script[i]);
        i := i + 1;
      }
    }
  }

  method SessionPrompt(client: AcpClient, session: string, blocks: seq<string>,
                       idleTimeout: nat, maxDuration: nat, env: PromptEnv) returns (exit: Option<Exit>)
    modifies client
    ensures (client.State(), exit) == RunPrompt(old(client.State()), session, blocks, idleTimeout, maxDuration, env)
  {
    var hardDeadline := env.start + maxDuration;
    client.currentHardDeadline := Some(hardDeadline);
    client.lastPromptId := Some(client.nextId);
    var id := client.nextId;
    client.nextId := client.nextId + 1;
    exit := client.WriteLine(Request(id, Prompt(session, blocks)), env.write);
    if exit.Some? {
      if exit.value.WriteFailed? {
        client.lastPromptId := None;
        client.currentHardDeadline := None;
      }
      return;
    }
    assert client.State() == PromptSent(old(client.State()), session, blocks, maxDuration, env);
    var reading := new ReadLoop(client, Params(session, id, idleTimeout, maxDuration), hardDeadline, env.enter);
    reading.Run(env.script);
    assert reading.State() == PromptLoop(old(client.State()), session, blocks, idleTimeout, maxDuration, env);
    exit := reading.exit;
    if exit.Some? && !exit.value.Suspended? && !exit.value.IdleTimeout? && !exit.value.HardTimeout? {
      client.lastPromptId := None;
      client.currentHardDeadline := None;
    }
  }

  method CancelPending(client: AcpClient, write: WriteResult) returns (exit: Option<Exit>)
    modifies client
    ensures (client.State(), exit) == CancelPermission(old(client.State()), write)
  {
    exit := None;
    if client.pendingPermission.Some? {
      if !client.permissionResponded {
        var pending := client.pendingPermission.value;
        exit := client.WriteLine(PermissionReply(pending.ordinal, pending.id, None), write);
        if exit.Some? {
          return;
        }
      }
      client.pendingPermission := None;
      client.permissionResponded := false;
    }
  }

  /** A whole loop over the client. */
  method Drain(client: AcpClient, p: Params, hardDeadline: nat, now: nat, script: seq<Input>)
    returns (exit: Option<Exit>)
    modifies client
    ensures var s := RunLoop(p, Enter(old(client.State()), p, hardDeadline, now), script);
      client.State() == s.client && exit == s.exit
  {
    var reading := new ReadLoop(client, p, hardDeadline, now);
    reading.Run(script);
    exit := reading.exit;
  }

  method CancelWithCleanupUntil(client: AcpClient, session: string, hardDeadline: nat, env: CancelEnv)
    returns (exit: CancelExit)
    modifies client
    ensures (client.State(), exit) == CancelUntil(old(client.State()), session, hardDeadline, env)
  {
    if client.lastPromptId.None? {
      return NoPrompt;
    }
    var promptId := client.lastPromptId.value;
    client.lastPromptId := None;
    var early := CancelPending(client, env.reply);
    if early.Some? {
      return Drained(early);
    }
    var failed := client.WriteLine(CancelNotice(session), env.notice);
    if failed.Some? {
      return Drained(failed);
    }
    var remaining := if hardDeadline < env.measure then 0 else hardDeadline - env.measure;
    var p := Params(session, promptId, CLEANUP_GRACE, remaining);
    var drained := Drain(client, p, hardDeadline, env.enter, env.script);
    exit := Drained(drained);
  }

  method CancelWithCleanup(client: AcpClient, session: string, env: CancelEnv) returns (exit: CancelExit)
    modifies client
    ensures (client.State(), exit) == Cancel(old(client.State()), session, env)
  {
    var stored := client.currentHardDeadline;
    client.currentHardDeadline := None;
    var hardDeadline := env.start + CLEANUP_GRACE;
    if stored.Some? && stored.value > hardDeadline {
      hardDeadline := stored.value;
    }
    exit := CancelWithCleanupUntil(client, session, hardDeadline, env);
  }

  method CancelWithCleanupGrace(client: AcpClient, session: string, grace: nat, env: CancelEnv)
    returns (exit: CancelExit)
    modifies client
    ensures (client.State(), exit) == CancelGrace(old(client.State()), session, grace, env)
  {
    client.currentHardDeadline := None;
    exit := CancelWithCleanupUntil(client, session, env.start + grace, env);
    if exit.Drained? && exit.exit.Some? && exit.exit.value.HardTimeout? {
      exit := DrainTimeout(grace);
    }
  }
}
