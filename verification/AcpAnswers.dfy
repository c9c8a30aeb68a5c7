/** What each operation of the client answers, in terms of its own arguments. */
module AcpAnswers {
  import opened Json
  import opened Options
  import opened AcpMessages
  import opened AcpProtocol
  import opened AcpLoopSafety
  import opened AcpSessionSafety

  // -------------------------------------------------------- Permission requests

  /** The id a reply to these options selects: that of the first option of the kind. */
  ghost predicate Selects(options: seq<PermissionOption>, kind: OptionKind, selected: Option<string>) {
    && (forall i: nat :: FirstOf(options, kind, i) ==> selected == options[i].optionId)
    && ((forall i :: 0 <= i < |options| ==> options[i].kind != kind) ==> selected.None?)
  }

  /** A decided request is answered by exactly one reply under its own id: the first
      `allow_once` option on an approval, the first `reject_once` option otherwise. */
  lemma PermissionAnswered(c: Client, msg: Message, outcome: PermissionOutcome)
    requires msg.verb.RequestPermission? && msg.id.Some? && msg.verb.options.Some?
    ensures var (c', exit) := Dispatch(c, msg, Decided(outcome), Written);
      && exit.None? && c'.pendingPermission.None? && c'.permissionResponded
      && |c'.written| == |c.written| + 1 && c.written <= c'.written
      && var reply := c'.written[|c.written|];
      && reply.PermissionReply? && reply.replyTo == msg.id.value
      && Selects(msg.verb.options.value, if outcome.Approved? then AllowOnce else RejectOnce, reply.selected)
  {
    FoundOption(msg.verb.options.value, if outcome.Approved? then AllowOnce else RejectOnce);
  }

  /** Whatever keeps a request from being answered ends the loop, and once it has an id it is
      remembered for the cancel to answer. */
  lemma PermissionUnanswered(c: Client, msg: Message, decision: Decision, write: WriteResult)
    requires msg.verb.RequestPermission?
    requires msg.id.None? || msg.verb.options.None? || decision.Undecided? || !write.Written?
    ensures var (c', exit) := Dispatch(c, msg, decision, write);
      && c'.written == c.written
      && (msg.id.None? ==> c' == c && exit == Some(PermissionMissingId))
      && (msg.id.Some? ==>
            && c'.pendingPermission == Some(PendingPermission(c.permissionsSeen, msg.id.value))
            && !c'.permissionResponded
            && exit == Some(if msg.verb.options.None? then PermissionMissingOptions
                            else if decision.Decided? && write.Failed? then WriteFailed else Suspended))
  {
  }

  /** A request for an unknown method is refused under its own id and name, and nothing else
      about the client changes; a refusal that cannot be written ends the loop. */
  lemma RefusalAnswered(c: Client, msg: Message, decision: Decision, write: WriteResult)
    requires IsUnknownRequest(msg)
    ensures Dispatch(c, msg, decision, write) ==
      match write
      case Written => (c.(written := c.written + [MethodNotFound(msg.id.value, msg.verb.name)]), None)
      case Failed => (c, Some(WriteFailed))
      case Stalled => (c, Some(Suspended))
  {
  }

  // ---------------------------------------------------------------- Run ids

  predicate CarriesRun(msg: Message) {
    msg.verb.SessionUpdate? && msg.verb.update.RunId?
  }

  predicate LastRun(msgs: seq<Message>, i: nat) {
    i < |msgs| && CarriesRun(msgs[i]) && forall j :: i < j < |msgs| ==> !CarriesRun(msgs[j])
  }

  /** The announced run is the one of the last message that carries one, a null clearing it,
      and the one on entry when no message does. */
  lemma AnnouncedIsLast(runId: Option<string>, msgs: seq<Message>)
    ensures (forall i :: 0 <= i < |msgs| ==> !CarriesRun(msgs[i])) ==> Announced(runId, msgs) == runId
    ensures forall i: nat :: LastRun(msgs, i) ==> Announced(runId, msgs) == msgs[i].verb.update.run
  {
    if forall i :: 0 <= i < |msgs| ==> !CarriesRun(msgs[i]) {
      NothingAnnounced(runId, msgs);
    }
    forall i: nat | LastRun(msgs, i) ensures Announced(runId, msgs) == msgs[i].verb.update.run {
      AnnouncedAt(runId, msgs, i);
    }
  }

  lemma {:induction false} NothingAnnounced(runId: Option<string>, msgs: seq<Message>)
    requires forall i :: 0 <= i < |msgs| ==> !CarriesRun(msgs[i])
    ensures Announced(runId, msgs) == runId
    decreases |msgs|
  {
    if msgs != [] {
      NothingAnnounced(runId, msgs[..|msgs| - 1]);
    }
  }

  lemma {:induction false} AnnouncedAt(runId: Option<string>, msgs: seq<Message>, i: nat)
    requires LastRun(msgs, i)
    ensures Announced(runId, msgs) == msgs[i].verb.update.run
    decreases |msgs|
  {
    if i < |msgs| - 1 {
      var before := msgs[..|msgs| - 1];
      assert before[i] == msgs[i];
      AnnouncedAt(runId, before, i);
    }
  }

  // -------------------------------------------------------------- One iteration

  /** What the end of the agent's output and unusable lines do, before any deadline. */
  lemma LineEnds(p: Params, s: Loop, x: Input)
    requires s.exit.None? && x.top < NextDeadline(s) && x.arm.Read? && !x.arm.line.Parsed?
    ensures var s' := Step(p, s, x);
      && (x.arm.line.Closed? ==> s'.exit == Some(AgentExited))
      && (x.arm.line.TooLong? ==> s'.exit == Some(LineTooLong))
      && (x.arm.line.Broken? ==> s'.exit == Some(ReadFailed))
      && (x.arm.line.Blank? || x.arm.line.Garbage? ==> s' == s)
  {
  }

  /** The same in the loop without deadlines. */
  lemma PlainLineEnds(expectedId: nat, s: Plain, x: Input)
    requires s.exit.None? && x.arm.Read? && !x.arm.line.Parsed?
    ensures var s' := PlainStep(expectedId, s, x);
      && s'.client == s.client && s'.read == s.read
      && (x.arm.line.Closed? ==> s'.exit == Some(AgentExited))
      && (x.arm.line.TooLong? ==> s'.exit == Some(LineTooLong))
      && (x.arm.line.Broken? ==> s'.exit == Some(ReadFailed))
      && (x.arm.line.Blank? || x.arm.line.Garbage? ==> s'.exit.None?)
  {
  }

  /** Waking up with nothing to read ends the loop exactly when a deadline is due. */
  lemma SleepTimesOut(p: Params, s: Loop, x: Input)
    requires s.exit.None? && x.top < NextDeadline(s) && x.arm.Sleep?
    ensures Step(p, s, x).exit.Some? <==> x.woke >= s.idleDeadline || x.woke >= s.hardDeadline
    ensures Step(p, s, x).exit.None? ==> Step(p, s, x) == s
  {
  }

  /** The loop without deadlines does nothing but read. */
  lemma PlainOnlyReads(expectedId: nat, s: Plain, x: Input)
    requires !x.arm.Read?
    ensures PlainStep(expectedId, s, x) == s
  {
  }

  /** The silence a hard timeout reports is the time since the last activity. */
  lemma SilenceIsMeasured(p: Params, s: Loop, x: Input)
    requires s.exit.None? && Step(p, s, x).exit.Some? && Step(p, s, x).exit.value.HardTimeout?
    ensures var silence := Step(p, s, x).exit.value.silence;
      if x.later >= s.lastActivity then s.lastActivity + silence == x.later else silence == 0
  {
    if x.arm.Read? && x.arm.line.Parsed? {
      MessagesDoNotTimeOut(p, s, x, x.arm.line.msg);
    }
  }

  /** A steer is taken whenever the loop has a receiver and none in flight: it gets the next
      id and is in flight once written, and is refused at once when there is no way to send
      it or its write fails. */
  lemma SteerTaken(p: Params, s: Loop, x: Input)
    requires s.exit.None? && x.top < NextDeadline(s) && x.arm.Steer? && s.rx && s.pending.None?
    ensures var s', req := Step(p, s, x), x.arm.req;
      var sendable := s.client.activeRunId.Some? || s.client.steeringSupported;
      && |s'.taken| == |s.taken| + 1 && s'.taken[|s.taken|].ticket == req.ticket
      && s'.client.nextId == s.client.nextId + (if sendable then 1 else 0)
      && (if sendable && !x.write.Failed? then
            && s'.acks == s.acks
            && s'.pending == Some(PendingSteer(s.client.nextId,
                                               if s.client.activeRunId.Some? then Goose else AcpExtension, req.ticket))
            && s'.exit == (if x.write.Stalled? then Some(Suspended) else None)
          else
            && s'.pending.None? && s'.exit.None?
            && s'.acks == s.acks + [Ack(req.ticket, Failure(if sendable then TransportFailed else ExpectedRunIdMissing),
                                        None, None)])
  {
  }

  /** The response to the steer in flight settles it: an error is passed on; without one the
      goose call always succeeded and the extension did when it knows the outcome. Only a
      steer that reached this turn is timed, and moves the hard deadline, never back. */
  lemma SteerAnswered(p: Params, s: Loop, x: Input, msg: Message)
    requires s.exit.None? && s.pending.Some? && IsResponse(msg, s.pending.value.id)
    ensures var s', steer := OnMessage(p, s, x, msg), s.pending.value;
      && s'.pending.None? && s'.exit.None? && s'.taken == s.taken
      && |s'.acks| == |s.acks| + 1 && s.acks <= s'.acks
      && var ack := s'.acks[|s.acks|];
      && ack.ticket == steer.ticket && ack.response == Some(msg)
      && (if msg.error.Some? then ack.ack == Failure(AgentError(ErrorCode(msg.error.value, -1), msg.error.value))
          else if steer.transport.AcpExtension? && msg.outcome.Unrecognised? then
            ack.ack == Failure(OutcomeRejected(msg.outcome.reported))
          else ack.ack == Success(p.session))
      && (ack.injectedAt == if msg.error.None? && (steer.transport.Goose? || msg.outcome.Injected?)
                            then Some(x.later) else None)
      && s'.hardDeadline == (if ack.injectedAt.Some? && x.later + p.maxDuration > s.hardDeadline
                             then x.later + p.maxDuration else s.hardDeadline)
  {
  }

  // ------------------------------------------------------------- Whole operations

  /** A written prompt returns what the first response to its own id says, and times out on
      its own idle timeout; its steers are acknowledged for its own session. */
  lemma PromptAnswered(c: Client, session: string, blocks: seq<string>,
                       idleTimeout: nat, maxDuration: nat, env: PromptEnv)
    requires ClientOk(c)
    ensures var s := PromptLoop(c, session, blocks, idleTimeout, maxDuration, env);
      && ExitFits(c.nextId, s.read, s.exit)
      && s.idleDeadline == s.lastActivity + idleTimeout
      && (forall i :: 0 <= i < |s.acks| && s.acks[i].ack.Success? ==> s.acks[i].ack.session == session)
    ensures RunPrompt(c, session, blocks, idleTimeout, maxDuration, env).1 ==
              match env.write
              case Written => PromptLoop(c, session, blocks, idleTimeout, maxDuration, env).exit
              case Failed => Some(WriteFailed)
              case Stalled => Some(Suspended)
  {
    PromptLoopOk(c, session, blocks, idleTimeout, maxDuration, env);
    var p := PromptParams(c, session, idleTimeout, maxDuration);
    var s := PromptLoop(c, session, blocks, idleTimeout, maxDuration, env);
    forall i | 0 <= i < |s.acks| && s.acks[i].ack.Success? ensures s.acks[i].ack.session == session {
      assert Entitled(p, s.read, s.taken[i], s.acks[i]);
    }
  }

  /** How many of the steers taken were given an id. */
  function Numbered(taken: seq<Taken>): nat {
    if taken == [] then 0
    else Numbered(taken[..|taken| - 1]) + (if taken[|taken| - 1].sent.Some? then 1 else 0)
  }

  lemma StepNumbers(p: Params, s: Loop, x: Input)
    ensures var s' := Step(p, s, x); s'.client.nextId - Numbered(s'.taken) == s.client.nextId - Numbered(s.taken)
  {
    StepCases(p, s, x);
    if x.arm.Read? && x.arm.line.Parsed? {
      MessageFrame(p, s, x, x.arm.line.msg);
      MessageKeepsNext(p, s, x, x.arm.line.msg);
    } else if x.arm.Steer? {
      TakeNumbers(p, s, x.arm.req, x.write);
    }
  }

  lemma MessageKeepsNext(p: Params, s: Loop, x: Input, msg: Message)
    ensures OnMessage(p, s, x, msg).client.nextId == s.client.nextId
  {
    if !(s.pending.Some? && IsResponse(msg, s.pending.value.id)) && !IsResponse(msg, p.expectedId) {
      OtherClient(p, s, x, msg);
      DispatchFrame(s.client, msg, x.decision, x.write);
    } else {
      ResponseFrame(p, s, x, msg);
    }
  }

  lemma TakeNumbers(p: Params, s: Loop, req: SteerRequest, write: WriteResult)
    ensures var s' := TakeSteer(p, s, req, write);
      s'.client.nextId - Numbered(s'.taken) == s.client.nextId - Numbered(s.taken)
  {
    var s' := TakeSteer(p, s, req, write);
    assert s'.taken[..|s.taken|] == s.taken;
  }

  lemma {:induction false} RunNumbers(p: Params, s: Loop, script: seq<Input>)
    ensures var s' := RunLoop(p, s, script);
      && s'.client.nextId - Numbered(s'.taken) == s.client.nextId - Numbered(s.taken)
      && s'.client.steerRx == s.client.steerRx
    decreases |script|
  {
    if script != [] && s.exit.None? {
      StepNumbers(p, s, script[0]);
      StepFrame(p, s, script[0]);
      RunNumbers(p, Step(p, s, script[0]), script[1..]);
    }
  }

  /** A prompt uses up one id for itself and one for each steer it tried to write, and its loop
      takes the steer receiver with it. */
  lemma PromptNumbers(c: Client, session: string, blocks: seq<string>,
                      idleTimeout: nat, maxDuration: nat, env: PromptEnv)
    ensures var c' := RunPrompt(c, session, blocks, idleTimeout, maxDuration, env).0;
      if env.write.Written? then
        && !c'.steerRx
        && c'.nextId == c.nextId + 1 + Numbered(PromptLoop(c, session, blocks, idleTimeout, maxDuration, env).taken)
      else c'.steerRx == c.steerRx && c'.nextId == c.nextId + 1
  {
    var p := PromptParams(c, session, idleTimeout, maxDuration);
    RunNumbers(p, Enter(PromptSent(c, session, blocks, maxDuration, env), p, env.start + maxDuration, env.enter),
               env.script);
  }

  /** The steering calls among the lines from `from` on are for the session. */
  ghost predicate SteersFor(session: string, w: seq<Wire>, from: nat) {
    forall i :: from <= i < |w| && w[i].Request? ==>
      (w[i].call.GooseSteer? || w[i].call.AcpSteer?) && w[i].call.session == session
  }

  lemma StepSteersFor(p: Params, s: Loop, x: Input)
    ensures s.client.written <= Step(p, s, x).client.written
    ensures SteersFor(p.session, Step(p, s, x).client.written, |s.client.written|)
  {
    StepAppends(p, s, x);
    ClientAfterStep(p, s, x);
    if x.arm.Steer? {
      TakeSteerClient(p, s, x.arm.req, x.write);
    }
  }

  /** While the loop runs, the only requests written are steers for its session. */
  lemma {:induction false} RunSteersFor(p: Params, s: Loop, script: seq<Input>)
    ensures s.client.written <= RunLoop(p, s, script).client.written
    ensures SteersFor(p.session, RunLoop(p, s, script).client.written, |s.client.written|)
    decreases |script|
  {
    if script != [] && s.exit.None? {
      var s' := Step(p, s, script[0]);
      StepSteersFor(p, s, script[0]);
      RunSteersFor(p, s', script[1..]);
      var w := RunLoop(p, s', script[1..]).client.written;
      assert forall i :: |s.client.written| <= i < |s'.client.written| ==> w[i] == s'.client.written[i];
    }
  }

  /** After the prompt's own line come only steers for the prompt's session. */
  lemma PromptSteersFor(c: Client, session: string, blocks: seq<string>,
                        idleTimeout: nat, maxDuration: nat, env: PromptEnv)
    ensures SteersFor(session, PromptLoop(c, session, blocks, idleTimeout, maxDuration, env).client.written,
                      |c.written| + 1)
  {
    var p := PromptParams(c, session, idleTimeout, maxDuration);
    RunSteersFor(p, Enter(PromptSent(c, session, blocks, maxDuration, env), p, env.start + maxDuration, env.enter),
                 env.script);
  }

  /** A request is the next line on the wire under the next id, and returns what the first
      response to that id says. */
  lemma RequestAnswered(c: Client, call: Call, write: WriteResult, script: seq<Input>) returns (read: seq<Message>)
    requires ClientOk(c) && call.Other?
    ensures var (c', exit) := SendRequest(c, call, write, script);
      match write
      case Failed => exit == Some(WriteFailed) && c'.written == c.written
      case Stalled => exit == Some(Suspended) && c'.written == c.written
      case Written =>
        && ExitFits(c.nextId, read, exit)
        && |c'.written| > |c.written| && c.written <= c'.written && c'.written[|c.written|] == Request(c.nextId, call)
  {
    var id := c.nextId;
    SteerKeepsClient(c, call);
    var sent := c.(nextId := id + 1, written := c.written + [Request(id, call)]);
    var plain := RunPlain(id, Plain(sent, [], None), script);
    assert ExitFits(id, plain.read, plain.exit) by { RunPlainOk(id, sent, Plain(sent, [], None), script); }
    PlainAppends(id, Plain(sent, [], None), script);
    assert sent.written[|c.written|] == Request(id, call);
    read := plain.read;
  }

  lemma {:induction false} PlainAppends(expectedId: nat, s: Plain, script: seq<Input>)
    ensures s.client.written <= RunPlain(expectedId, s, script).client.written
    decreases |script|
  {
    if script != [] && s.exit.None? {
      if script[0].arm.Read? && script[0].arm.line.Parsed? {
        DispatchAppends(s.client, script[0].arm.line.msg, script[0].decision, script[0].write);
      }
      PlainAppends(expectedId, PlainStep(expectedId, s, script[0]), script[1..]);
    }
  }

  /** After a successful `initialize` the client supports steering exactly when the result says
      so with a true `_meta.steering.supported`; after a failed one as before. */
  lemma InitializeRecords(c: Client, params: Json, write: WriteResult, script: seq<Input>)
    requires ClientOk(c)
    ensures var (c', exit) := Initialize(c, params, write, script);
      && exit == SendRequest(c, Other("initialize", params), write, script).1
      && c'.steeringSupported ==
           (if exit.Some? && exit.value.Returned? then SaysSupported(exit.value.result) else c.steeringSupported)
  {
    var call := Other("initialize", params);
    CallKeeps(c, call, write, script);
    var sent := c.(nextId := c.nextId + 1, written := c.written + [Request(c.nextId, call)]);
    PlainSupport(c.nextId, Plain(sent, [], None), script);
  }

  predicate SaysSupported(result: Json) {
    && result.Obj? && "_meta" in result.fields && result.fields["_meta"].Obj?
    && var meta := result.fields["_meta"].fields;
    && "steering" in meta && meta["steering"].Obj?
    && "supported" in meta["steering"].fields && meta["steering"].fields["supported"] == Bool(true)
  }

  lemma {:induction false} PlainSupport(expectedId: nat, s: Plain, script: seq<Input>)
    ensures RunPlain(expectedId, s, script).client.steeringSupported == s.client.steeringSupported
    decreases |script|
  {
    if script != [] && s.exit.None? {
      if script[0].arm.Read? && script[0].arm.line.Parsed? {
        DispatchFrame(s.client, script[0].arm.line.msg, script[0].decision, script[0].write);
      }
      PlainSupport(expectedId, PlainStep(expectedId, s, script[0]), script[1..]);
    }
  }

  // ---------------------------------------------------------------- Cancelling

  lemma {:induction false} RunLoopSplits(p: Params, s: Loop, a: seq<Input>, b: seq<Input>)
    ensures RunLoop(p, s, a + b) == RunLoop(p, RunLoop(p, s, a), b)
    decreases |a|
  {
    if a == [] {
      assert a + b == b;
    } else if s.exit.None? {
      assert (a + b)[0] == a[0] && (a + b)[1..] == a[1..] + b;
      RunLoopSplits(p, Step(p, s, a[0]), a[1..], b);
    }
  }

  /** A cancel without a prompt says so; one that could not write its reply or its notice ends
      there; and one that drained returns what its loop said about the recorded prompt. */
  lemma CancelAnswered(c: Client, session: string, hardDeadline: nat, env: CancelEnv) returns (read: seq<Message>)
    requires ClientOk(c)
    ensures var exit := CancelUntil(c, session, hardDeadline, env).1;
      if c.lastPromptId.None? then exit == NoPrompt
      else if OwedReply(c) != [] && !env.reply.Written? then
        exit == Drained(Some(if env.reply.Failed? then WriteFailed else Suspended))
      else if !env.notice.Written? then exit == Drained(Some(if env.notice.Failed? then WriteFailed else Suspended))
      else exit.Drained? && ExitFits(c.lastPromptId.value, read, exit.exit)
  {
    read := [];
    if c.lastPromptId.Some? {
      var promptId := c.lastPromptId.value;
      CancelPermissionKeeps(c.(lastPromptId := None), env.reply);
      var (answered, early) := CancelPermission(c.(lastPromptId := None), env.reply);
      if early.None? && env.notice.Written? {
        var p := DrainParams(session, promptId, hardDeadline, env.measure);
        var e := DrainStart(answered, session, promptId, hardDeadline, env);
        DrainStartOk(answered, session, promptId, hardDeadline, env);
        RunLoopOk(p, e, e, env.script);
        read := RunLoop(p, e, env.script).read;
      }
    }
  }

  /** The script up to `k`, then `y` instead of what came there. */
  function CutAt(env: CancelEnv, k: nat, y: Input): CancelEnv
    requires k < |env.script|
  {
    env.(script := env.script[..k] + [y])
  }

  lemma LateStep(p: Params, e: Loop, script: seq<Input>, k: nat, y: Input, hardDeadline: nat)
    requires LoopOk(p, e, e) && !e.rx && e.hardDeadline == hardDeadline && k < |script|
    requires script[k].top >= hardDeadline && y.top >= hardDeadline && y.later == script[k].later
    ensures RunLoop(p, e, script) == RunLoop(p, e, script[..k] + [y]) && RunLoop(p, e, script).exit.Some?
  {
    var s := RunLoop(p, e, script[..k]);
    RunLoopOk(p, e, e, script[..k]);
    assert s.taken == [] && s.acks == [] && s.hardDeadline == hardDeadline;
    assert script == script[..k] + script[k..] && script[k..][0] == script[k];
    RunLoopSplits(p, e, script[..k], script[k..]);
    RunLoopSplits(p, e, script[..k], [y]);
    if s.exit.None? {
      var left := TimeOut(s, y.later);
      assert Step(p, s, script[k]) == left && Step(p, s, y) == left && left.exit.Some?;
      assert RunLoop(p, s, [y]) == left;
      assert RunLoop(p, s, script[k..]) == RunLoop(p, left, script[k..][1..]) == left;
    }
  }

  /** Without a receiver a drain is over with the first iteration that starts at or past its
      deadline: whatever came there or later, it is not read. */
  lemma LateInputsUnread(c: Client, session: string, hardDeadline: nat, env: CancelEnv, k: nat, y: Input)
    requires ClientOk(c) && !c.steerRx && k < |env.script|
    requires env.script[k].top >= hardDeadline && y.top >= hardDeadline && y.later == env.script[k].later
    ensures CancelUntil(c, session, hardDeadline, env) == CancelUntil(c, session, hardDeadline, CutAt(env, k, y))
    ensures CancelUntil(c, session, hardDeadline, env).1 != Drained(None)
  {
    if c.lastPromptId.Some? {
      var promptId := c.lastPromptId.value;
      CancelPermissionKeeps(c.(lastPromptId := None), env.reply);
      var (answered, early) := CancelPermission(c.(lastPromptId := None), env.reply);
      if early.None? && env.notice.Written? {
        var p := DrainParams(session, promptId, hardDeadline, env.measure);
        var e := DrainStart(answered, session, promptId, hardDeadline, env);
        DrainStartOk(answered, session, promptId, hardDeadline, env);
        LateStep(p, e, env.script, k, y, hardDeadline);
      }
    }
  }

  /** `cancel_with_cleanup` is over by the later of the inherited deadline and thirty seconds
      from its start. */
  lemma CancelIsBounded(c: Client, session: string, env: CancelEnv, k: nat, y: Input)
    requires ClientOk(c) && !c.steerRx && k < |env.script| && y.later == env.script[k].later
    requires env.script[k].top >= env.start + 30 && y.top >= env.start + 30
    requires c.currentHardDeadline.Some? ==>
               env.script[k].top >= c.currentHardDeadline.value && y.top >= c.currentHardDeadline.value
    ensures Cancel(c, session, env) == Cancel(c, session, CutAt(env, k, y))
    ensures Cancel(c, session, env).1 != Drained(None)
  {
    LateInputsUnread(c.(currentHardDeadline := None), session, DrainDeadline(c, env.start), env, k, y);
  }

  /** The bounded cancel is over by the end of its grace. */
  lemma GraceIsBounded(c: Client, session: string, grace: nat, env: CancelEnv, k: nat, y: Input)
    requires ClientOk(c) && !c.steerRx && k < |env.script| && y.later == env.script[k].later
    requires env.script[k].top >= env.start + grace && y.top >= env.start + grace
    ensures CancelGrace(c, session, grace, env) == CancelGrace(c, session, grace, CutAt(env, k, y))
    ensures CancelGrace(c, session, grace, env).1 != Drained(None)
  {
    LateInputsUnread(c.(currentHardDeadline := None), session, env.start + grace, env, k, y);
  }

  lemma HardTimeoutIsDue(c: Client, session: string, hardDeadline: nat, env: CancelEnv)
    requires ClientOk(c)
    ensures var exit := CancelUntil(c, session, hardDeadline, env).1;
      exit.Drained? && exit.exit.Some? && exit.exit.value.HardTimeout? ==> SawReading(env, hardDeadline)
  {
    if c.lastPromptId.Some? {
      var promptId := c.lastPromptId.value;
      CancelPermissionKeeps(c.(lastPromptId := None), env.reply);
      var (answered, early) := CancelPermission(c.(lastPromptId := None), env.reply);
      if early.None? && env.notice.Written? {
        var p := DrainParams(session, promptId, hardDeadline, env.measure);
        var e := DrainStart(answered, session, promptId, hardDeadline, env);
        DrainStartOk(answered, session, promptId, hardDeadline, env);
        RunLoopOk(p, e, e, env.script);
        TimeoutsAreDue(p, e, env.script);
      }
    }
  }

  /** The bounded cancel reports its own timeout, with its own grace, exactly when its drain
      ran into the hard deadline, which is then due; a drain until that deadline that ended
      in any other way is reported as it ended. */
  lemma GraceAnswered(c: Client, session: string, grace: nat, env: CancelEnv)
    requires ClientOk(c)
    ensures var exit := CancelGrace(c, session, grace, env).1;
      var drain := CancelUntil(c.(currentHardDeadline := None), session, env.start + grace, env).1;
      var hard := drain.Drained? && drain.exit.Some? && drain.exit.value.HardTimeout?;
      && (exit.DrainTimeout? <==> hard)
      && (exit.DrainTimeout? ==> exit.grace == grace && SawReading(env, env.start + grace))
      && (!hard ==> exit == drain)
      && !(exit.Drained? && exit.exit.Some? && exit.exit.value.HardTimeout?)
  {
    HardTimeoutIsDue(c.(currentHardDeadline := None), session, env.start + grace, env);
  }
}
