/** What every run of the idle-aware read loop keeps: fresh ids and one-shot permission
    replies, acks that match the steer requests taken, deadlines, and dispatch. */
module AcpLoopSafety {
  import opened Json
  import opened Options
  import opened AcpMessages
  import opened AcpProtocol

  // --------------------------------------------------------- The client alone

  /** Requests on the wire have increasing ids, all of them already allocated. */
  ghost predicate FreshIds(w: seq<Wire>, nextId: nat) {
    && (forall i, j :: 0 <= i < j < |w| && w[i].Request? && w[j].Request? ==> w[i].id < w[j].id)
    && (forall i :: 0 <= i < |w| && w[i].Request? ==> w[i].id < nextId)
  }

  /** Permission replies answer distinct requests, all below `bound`. */
  ghost predicate OneReplyEach(w: seq<Wire>, bound: nat) {
    && (forall i, j :: 0 <= i < j < |w| && w[i].PermissionReply? && w[j].PermissionReply?
          ==> w[i].ordinal < w[j].ordinal)
    && (forall i :: 0 <= i < |w| && w[i].PermissionReply? ==> w[i].ordinal < bound)
  }

  /** Some result of `initialize` advertised the steering extension. */
  ghost predicate EverAdvertised(initialized: seq<Json>) {
    exists i :: 0 <= i < |initialized| && Advertises(initialized[i])
  }

  /** The flag is what the last result of `initialize` said. */
  predicate FlagFollows(supported: bool, initialized: seq<Json>) {
    supported <==> initialized != [] && Advertises(initialized[|initialized| - 1])
  }

  /** The steering extension is only used when the agent advertised it. */
  ghost predicate OnlyAdvertised(w: seq<Wire>, supported: bool) {
    forall i :: 0 <= i < |w| && w[i].Request? && w[i].call.AcpSteer? ==> supported
  }

  ghost predicate ClientOk(c: Client) {
    && FreshIds(c.written, c.nextId)
    && (c.lastPromptId.Some? ==> c.lastPromptId.value < c.nextId)
    && OneReplyEach(c.written, c.permissionsSeen)
    && (c.pendingPermission.Some? ==>
          && !c.permissionResponded
          && c.pendingPermission.value.ordinal + 1 == c.permissionsSeen
          && OneReplyEach(c.written, c.pendingPermission.value.ordinal))
    && FlagFollows(c.steeringSupported, c.initialized)
    && OnlyAdvertised(c.written, EverAdvertised(c.initialized))
  }

  /** One more line on the wire. */
  lemma WireAppends(w: seq<Wire>, line: Wire, nextId: nat, bound: nat, advertised: bool)
    requires FreshIds(w, nextId) && OneReplyEach(w, bound) && OnlyAdvertised(w, advertised)
    ensures line.Request? && line.id == nextId ==> FreshIds(w + [line], nextId + 1)
    ensures !line.Request? ==> FreshIds(w + [line], nextId)
    ensures line.PermissionReply? && line.ordinal == bound ==> OneReplyEach(w + [line], bound + 1)
    ensures !line.PermissionReply? ==> OneReplyEach(w + [line], bound)
    ensures (line.Request? && line.call.AcpSteer? ==> advertised) ==> OnlyAdvertised(w + [line], advertised)
  {
  }

  lemma WireWidens(w: seq<Wire>, nextId: nat, bound: nat)
    requires FreshIds(w, nextId) && OneReplyEach(w, bound)
    ensures FreshIds(w, nextId + 1) && OneReplyEach(w, bound + 1)
  {
  }

  lemma PermissionKeepsClient(c: Client, id: Option<Json>, options: Option<seq<PermissionOption>>,
                              decision: Decision, write: WriteResult)
    requires ClientOk(c)
    ensures ClientOk(OnPermission(c, id, options, decision, write).0)
  {
    WireWidens(c.written, c.nextId, c.permissionsSeen);
    if id.Some? && options.Some? && decision.Decided? {
      var reply := PermissionReply(c.permissionsSeen, id.value,
                                   FindOption(options.value, SelectedKind(decision.outcome)));
      WireAppends(c.written, reply, c.nextId, c.permissionsSeen, EverAdvertised(c.initialized));
    }
  }

  lemma RefusalKeepsClient(c: Client, replyTo: Json, name: string)
    requires ClientOk(c)
    ensures ClientOk(c.(written := c.written + [MethodNotFound(replyTo, name)]))
  {
    var line := MethodNotFound(replyTo, name);
    WireAppends(c.written, line, c.nextId, c.permissionsSeen, EverAdvertised(c.initialized));
    if c.pendingPermission.Some? {
      WireAppends(c.written, line, c.nextId, c.pendingPermission.value.ordinal, EverAdvertised(c.initialized));
    }
  }

  lemma DispatchKeepsClient(c: Client, msg: Message, decision: Decision, write: WriteResult)
    requires ClientOk(c)
    ensures ClientOk(Dispatch(c, msg, decision, write).0)
  {
    match msg.verb {
      case NoMethod =>
      case NotAString =>
      case SessionUpdate(_) =>
      case GooseUpdate =>
      case RequestPermission(options) => PermissionKeepsClient(c, msg.id, options, decision, write);
      case UnknownMethod(name) =>
        if msg.id.Some? {
          RefusalKeepsClient(c, msg.id.value, name);
        }
    }
  }

  /** What dispatching a message never touches. */
  lemma DispatchFrame(c: Client, msg: Message, decision: Decision, write: WriteResult)
    ensures var c' := Dispatch(c, msg, decision, write).0;
      && c'.nextId == c.nextId
      && c'.lastPromptId == c.lastPromptId
      && c'.currentHardDeadline == c.currentHardDeadline
      && c'.steerRx == c.steerRx
      && c'.steeringSupported == c.steeringSupported
  {
  }

  lemma SteerKeepsClient(c: Client, call: Call)
    requires ClientOk(c)
    requires call.AcpSteer? ==> c.steeringSupported
    ensures ClientOk(c.(nextId := c.nextId + 1))
    ensures ClientOk(c.(nextId := c.nextId + 1, written := c.written + [Request(c.nextId, call)]))
  {
    var line := Request(c.nextId, call);
    WireWidens(c.written, c.nextId, c.permissionsSeen);
    WireAppends(c.written, line, c.nextId, c.permissionsSeen, EverAdvertised(c.initialized));
    if c.pendingPermission.Some? {
      WireAppends(c.written, line, c.nextId, c.pendingPermission.value.ordinal, EverAdvertised(c.initialized));
    }
  }

  /** How one iteration can change the client. */
  lemma ClientAfterStep(p: Params, s: Loop, x: Input)
    ensures var c, c' := s.client, Step(p, s, x).client;
      || c' == c.(currentHardDeadline := c'.currentHardDeadline)
      || (x.arm.Read? && x.arm.line.Parsed? && c' == Dispatch(c, x.arm.line.msg, x.decision, x.write).0)
      || (x.arm.Steer? && c' == TakeSteer(p, s, x.arm.req, x.write).client)
  {
  }

  lemma TakeSteerKeepsClient(p: Params, s: Loop, req: SteerRequest, write: WriteResult)
    requires ClientOk(s.client)
    ensures ClientOk(TakeSteer(p, s, req, write).client)
  {
    var selected := SelectSteer(s.client, p.session, req.blocks);
    TakeSteerClient(p, s, req, write);
    if selected.Some? {
      SteerKeepsClient(s.client, selected.value.1);
    }
  }

  /** Taking a steer changes the client only by the id it allocates and the line it writes. */
  lemma TakeSteerClient(p: Params, s: Loop, req: SteerRequest, write: WriteResult)
    ensures var c, c' := s.client, TakeSteer(p, s, req, write).client;
      var selected := SelectSteer(c, p.session, req.blocks);
      && (selected.None? ==> c' == c)
      && (selected.Some? && write.Written? ==>
            c' == c.(nextId := c.nextId + 1, written := c.written + [Request(c.nextId, selected.value.1)]))
      && (selected.Some? && !write.Written? ==> c' == c.(nextId := c.nextId + 1))
  {
  }

  lemma StepKeepsClient(p: Params, s: Loop, x: Input)
    requires ClientOk(s.client)
    ensures ClientOk(Step(p, s, x).client)
  {
    ClientAfterStep(p, s, x);
    if x.arm.Steer? {
      TakeSteerKeepsClient(p, s, x.arm.req, x.write);
    } else if x.arm.Read? && x.arm.line.Parsed? {
      DispatchKeepsClient(s.client, x.arm.line.msg, x.decision, x.write);
    }
  }

  // ----------------------------------------------------------------- Steering

  /** The ack `a` of the taken request `t` is one the loop was entitled to send. */
  ghost predicate Entitled(p: Params, read: seq<Message>, t: Taken, a: Ack) {
    && a.ticket == t.ticket
    && (a.response.Some? ==>
          && t.sent.Some?
          && a.response.value in read
          && IsResponse(a.response.value, t.sent.value.id))
    && (a.injectedAt.Some? ==> a.ack.Success?)
    && match a.ack
       case Success(session) =>
         && session == p.session
         && a.response.Some?
         && a.response.value.error.None?
         && (t.sent.value.transport.AcpExtension? ==> !a.response.value.outcome.Unrecognised?)
         && (a.injectedAt.Some? <==>
               t.sent.value.transport.Goose? || a.response.value.outcome.Injected?)
       case Failure(AgentError(code, error)) =>
         a.response.Some? && a.response.value.error == Some(error) && code == ErrorCode(error, -1)
       case Failure(OutcomeRejected(reported)) =>
         && a.response.Some?
         && t.sent.value.transport.AcpExtension?
         && a.response.value.error.None?
         && a.response.value.outcome == Unrecognised(reported)
       case Failure(ExpectedRunIdMissing) => t.sent.None? && a.response.None?
       case Failure(TransportFailed) => t.sent.Some? && a.response.None?
       case PromptCompletedNeutral => t.sent.Some? && a.response.None?
  }

  /** Exits at which an in-flight steer's sender is dropped without an ack. */
  predicate DropsSteer(exit: Exit) {
    exit.Suspended? || exit.WriteFailed? || exit.PermissionMissingId? || exit.PermissionMissingOptions?
  }

  /** Acks answer the taken requests in order, one each, except the one in flight. */
  ghost predicate SteerOk(p: Params, s: Loop) {
    && |s.taken| == |s.acks| + (if s.pending.Some? then 1 else 0)
    && (forall i :: 0 <= i < |s.acks| ==> Entitled(p, s.read, s.taken[i], s.acks[i]))
    && (s.pending.Some? ==>
          var t := s.pending.value;
          && s.taken[|s.acks|] == Taken(t.ticket, Some(Sent(t.id, t.transport)))
          && p.expectedId < t.id < s.client.nextId)
    && (s.exit.Some? && !DropsSteer(s.exit.value) ==> s.pending.None?)
    && (s.exit.None? ==> forall i :: 0 <= i < |s.acks| ==> !s.acks[i].ack.PromptCompletedNeutral?)
    && p.expectedId < s.client.nextId
  }

  lemma HearSteer(p: Params, s: Loop, msg: Message, now: nat)
    requires SteerOk(p, s)
    ensures SteerOk(p, Hear(p, s, msg, now))
  {
    forall i | 0 <= i < |s.acks|
      ensures Entitled(p, s.read + [msg], s.taken[i], s.acks[i])
    {
      assert Entitled(p, s.read, s.taken[i], s.acks[i]);
    }
  }

  lemma LeaveSteer(p: Params, s: Loop, exit: Exit)
    requires SteerOk(p, s) && s.exit.None?
    ensures SteerOk(p, Leave(s, exit))
  {
  }

  lemma TakeSteerSteer(p: Params, s: Loop, req: SteerRequest, write: WriteResult)
    requires SteerOk(p, s) && s.exit.None? && s.pending.None?
    ensures SteerOk(p, TakeSteer(p, s, req, write))
  {
  }

  lemma ResponseSteer(p: Params, s: Loop, msg: Message, now: nat)
    requires SteerOk(p, s) && s.exit.None?
    requires s.pending.Some? && IsResponse(msg, s.pending.value.id) && msg in s.read
    ensures SteerOk(p, OnSteerResponse(p, s, s.pending.value, msg, now))
  {
  }

  lemma OtherSteer(p: Params, s: Loop, x: Input, msg: Message)
    requires SteerOk(p, s) && s.exit.None?
    ensures SteerOk(p, OnOther(p, s, x, msg))
  {
    DispatchFrame(s.client, msg, x.decision, x.write);
  }

  lemma StepSteer(p: Params, s: Loop, x: Input)
    requires SteerOk(p, s) && s.exit.None?
    ensures SteerOk(p, Step(p, s, x))
  {
    StepCases(p, s, x);
    var s' := Step(p, s, x);
    if exit :| s' == Leave(s, exit) {
      LeaveSteer(p, s, exit);
    } else if x.arm.Steer? && s.pending.None? {
      TakeSteerSteer(p, s, x.arm.req, x.write);
    } else if x.arm.Read? && x.arm.line.Parsed? {
      var msg := x.arm.line.msg;
      var heard := Hear(p, s, msg, x.woke);
      HearSteer(p, s, msg, x.woke);
      if s.pending.Some? && IsResponse(msg, s.pending.value.id) {
        ResponseSteer(p, heard, msg, x.later);
      } else if IsResponse(msg, p.expectedId) {
        LeaveSteer(p, heard, if msg.error.Some? then AgentFailed(msg.error.value) else Returned(msg.result));
      } else {
        OtherSteer(p, heard, x, msg);
      }
    }
  }

  // ---------------------------------------------------------------- Deadlines

  /** The largest of `start` and `maxDuration` after each injection. */
  function Renewed(start: nat, acks: seq<Ack>, maxDuration: nat): nat {
    if acks == [] then start
    else
      var before := Renewed(start, acks[..|acks| - 1], maxDuration);
      match acks[|acks| - 1].injectedAt
      case Some(t) => if t + maxDuration > before then t + maxDuration else before
      case None => before
  }

  lemma RenewedSnoc(start: nat, acks: seq<Ack>, a: Ack, maxDuration: nat)
    ensures Renewed(start, acks + [a], maxDuration) ==
              var before := Renewed(start, acks, maxDuration);
              if a.injectedAt.Some? && a.injectedAt.value + maxDuration > before
              then a.injectedAt.value + maxDuration else before
  {
    assert (acks + [a])[..|acks|] == acks;
  }

  /** Relative to the loop `e` as entered: the idle deadline follows the last activity,
      and the hard deadline is the entry one unless an injection renewed it. */
  ghost predicate DeadlinesOk(p: Params, e: Loop, s: Loop) {
    && s.idleDeadline == s.lastActivity + p.idleTimeout
    && s.hardDeadline == Renewed(e.hardDeadline, s.acks, p.maxDuration)
    && s.hardDeadline >= e.hardDeadline
    && s.client.currentHardDeadline ==
         (if s.hardDeadline == e.hardDeadline then e.client.currentHardDeadline else Some(s.hardDeadline))
    && s.client.lastPromptId == e.client.lastPromptId
  }

  lemma LeaveDeadlines(p: Params, e: Loop, s: Loop, exit: Exit)
    requires DeadlinesOk(p, e, s)
    ensures DeadlinesOk(p, e, Leave(s, exit))
  {
    if s.pending.Some? {
      RenewedSnoc(e.hardDeadline, s.acks, Ack(s.pending.value.ticket, PromptCompletedNeutral, None, None),
                  p.maxDuration);
    }
  }

  lemma TakeSteerDeadlines(p: Params, e: Loop, s: Loop, req: SteerRequest, write: WriteResult)
    requires DeadlinesOk(p, e, s)
    ensures DeadlinesOk(p, e, TakeSteer(p, s, req, write))
  {
    var s' := TakeSteer(p, s, req, write);
    if s'.acks != s.acks {
      RenewedSnoc(e.hardDeadline, s.acks, s'.acks[|s.acks|], p.maxDuration);
    }
  }

  lemma ResponseDeadlines(p: Params, e: Loop, s: Loop, steer: PendingSteer, msg: Message, now: nat)
    requires DeadlinesOk(p, e, s)
    ensures DeadlinesOk(p, e, OnSteerResponse(p, s, steer, msg, now))
  {
    var s' := OnSteerResponse(p, s, steer, msg, now);
    RenewedSnoc(e.hardDeadline, s.acks, s'.acks[|s.acks|], p.maxDuration);
  }

  lemma MessageDeadlines(p: Params, e: Loop, s: Loop, x: Input, msg: Message)
    requires DeadlinesOk(p, e, s)
    ensures DeadlinesOk(p, e, OnMessage(p, s, x, msg))
  {
    var heard := Hear(p, s, msg, x.woke);
    if s.pending.Some? && IsResponse(msg, s.pending.value.id) {
      ResponseDeadlines(p, e, heard, s.pending.value, msg, x.later);
    } else if IsResponse(msg, p.expectedId) {
      LeaveDeadlines(p, e, heard, if msg.error.Some? then AgentFailed(msg.error.value) else Returned(msg.result));
    } else {
      DispatchFrame(s.client, msg, x.decision, x.write);
    }
  }

  lemma StepDeadlines(p: Params, e: Loop, s: Loop, x: Input)
    requires DeadlinesOk(p, e, s)
    ensures DeadlinesOk(p, e, Step(p, s, x))
  {
    StepCases(p, s, x);
    var s' := Step(p, s, x);
    if exit :| s' == Leave(s, exit) {
      LeaveDeadlines(p, e, s, exit);
    } else if x.arm.Steer? && s.pending.None? {
      TakeSteerDeadlines(p, e, s, x.arm.req, x.write);
    } else if x.arm.Read? && x.arm.line.Parsed? {
      MessageDeadlines(p, e, s, x, x.arm.line.msg);
    }
  }

  // ----------------------------------------------------------------- Dispatch

  /** The "method not found" replies, as (id, method) pairs in order. */
  function Refused(w: seq<Wire>): seq<(Json, string)> {
    if w == [] then []
    else
      var last := w[|w| - 1];
      var before := Refused(w[..|w| - 1]);
      if last.MethodNotFound? then before + [(last.replyTo, last.name)] else before
  }

  /** The requests with an unknown method among the messages read. */
  function Unknown(msgs: seq<Message>): seq<(Json, string)> {
    if msgs == [] then []
    else
      var last := msgs[|msgs| - 1];
      var before := Unknown(msgs[..|msgs| - 1]);
      if IsUnknownRequest(last) then before + [(last.id.value, last.verb.name)] else before
  }

  /** The run id announced by the last `session/update` that carried one. */
  function Announced(runId: Option<string>, msgs: seq<Message>): Option<string> {
    if msgs == [] then runId
    else
      var last := msgs[|msgs| - 1];
      var before := Announced(runId, msgs[..|msgs| - 1]);
      if last.verb.SessionUpdate? then RunIdAfter(before, last.verb.update) else before
  }

  lemma RefusedSnoc(w: seq<Wire>, x: Wire)
    ensures Refused(w + [x]) ==
              if x.MethodNotFound? then Refused(w) + [(x.replyTo, x.name)] else Refused(w)
  {
    assert (w + [x])[..|w|] == w;
  }

  lemma ReadSnoc(msgs: seq<Message>, msg: Message, runId: Option<string>)
    ensures Unknown(msgs + [msg]) ==
              if IsUnknownRequest(msg) then Unknown(msgs) + [(msg.id.value, msg.verb.name)] else Unknown(msgs)
    ensures Announced(runId, msgs + [msg]) ==
              if msg.verb.SessionUpdate? then RunIdAfter(Announced(runId, msgs), msg.verb.update)
              else Announced(runId, msgs)
  {
    assert (msgs + [msg])[..|msgs|] == msgs;
  }

  /** None of the first `n` messages answers the awaited request. */
  ghost predicate Unanswered(expectedId: nat, read: seq<Message>, n: nat)
    requires n <= |read|
  {
    forall i :: 0 <= i < n ==> !IsResponse(read[i], expectedId)
  }

  /** The last message read is the first to answer the awaited request. */
  ghost predicate JustAnswered(expectedId: nat, read: seq<Message>) {
    && read != []
    && IsResponse(read[|read| - 1], expectedId)
    && Unanswered(expectedId, read, |read| - 1)
  }

  predicate WriteCut(exit: Option<Exit>) {
    exit.Some? && (exit.value.WriteFailed? || exit.value.Suspended?)
  }

  /** Each unknown request read has been refused once, in order; only a failed or
      stalled write can leave the last one without its reply. */
  ghost predicate AllRefused(before: seq<Wire>, now: seq<Wire>, read: seq<Message>, exit: Option<Exit>) {
    || Refused(now) == Refused(before) + Unknown(read)
    || (&& WriteCut(exit) && read != [] && IsUnknownRequest(read[|read| - 1])
        && Refused(now) + [(read[|read| - 1].id.value, read[|read| - 1].verb.name)]
           == Refused(before) + Unknown(read))
  }

  /** The exit that the messages read call for. */
  ghost predicate ExitFits(expectedId: nat, read: seq<Message>, exit: Option<Exit>) {
    match exit
    case Some(Returned(result)) =>
      JustAnswered(expectedId, read) && read[|read| - 1].error.None? && result == read[|read| - 1].result
    case Some(AgentFailed(error)) =>
      JustAnswered(expectedId, read) && read[|read| - 1].error == Some(error)
    case _ => Unanswered(expectedId, read, |read|)
  }

  ghost predicate DispatchOk(p: Params, e: Loop, s: Loop) {
    && s.client.activeRunId == Announced(e.client.activeRunId, s.read)
    && AllRefused(e.client.written, s.client.written, s.read, s.exit)
    && ExitFits(p.expectedId, s.read, s.exit)
  }

  lemma TakeSteerDispatch(p: Params, e: Loop, s: Loop, req: SteerRequest, write: WriteResult)
    requires DispatchOk(p, e, s) && s.exit.None?
    ensures DispatchOk(p, e, TakeSteer(p, s, req, write))
  {
    var c, c' := s.client, TakeSteer(p, s, req, write).client;
    if c'.written != c.written {
      RefusedSnoc(c.written, c'.written[|c.written|]);
    }
  }

  /** One dispatched message: shared by both loops. */
  lemma DispatchRefuses(c: Client, msg: Message, decision: Decision, write: WriteResult)
    ensures var (c', exit) := Dispatch(c, msg, decision, write);
      && (Refused(c'.written) ==
            if IsUnknownRequest(msg) && exit.None? then Refused(c.written) + [(msg.id.value, msg.verb.name)]
            else Refused(c.written))
      && c'.activeRunId ==
           (if msg.verb.SessionUpdate? then RunIdAfter(c.activeRunId, msg.verb.update) else c.activeRunId)
      && (exit.Some? ==> DropsSteer(exit.value))
      && (IsUnknownRequest(msg) && exit.Some? ==> WriteCut(exit))
  {
    var (c', exit) := Dispatch(c, msg, decision, write);
    if c'.written != c.written {
      RefusedSnoc(c.written, c'.written[|c.written|]);
    }
  }

  lemma HearRefused(before: seq<Wire>, now: seq<Wire>, now': seq<Wire>,
                    read: seq<Message>, msg: Message, exit: Option<Exit>)
    requires Refused(now) == Refused(before) + Unknown(read)
    requires Refused(now') ==
               if IsUnknownRequest(msg) && !WriteCut(exit) then Refused(now) + [(msg.id.value, msg.verb.name)]
               else Refused(now)
    ensures AllRefused(before, now', read + [msg], exit)
  {
    ReadSnoc(read, msg, None);
  }

  lemma HearFits(expectedId: nat, read: seq<Message>, msg: Message, exit: Option<Exit>)
    requires Unanswered(expectedId, read, |read|)
    requires IsResponse(msg, expectedId) ==>
               exit == Some(if msg.error.Some? then AgentFailed(msg.error.value) else Returned(msg.result))
    requires !IsResponse(msg, expectedId) && exit.Some? ==> !exit.value.Returned? && !exit.value.AgentFailed?
    ensures ExitFits(expectedId, read + [msg], exit)
  {
  }

  /** A message is handled, in whichever way, with the given effect on the client. */
  lemma HandledDispatch(p: Params, e: Loop, s: Loop, s': Loop, msg: Message)
    requires DispatchOk(p, e, s) && s.exit.None?
    requires s'.read == s.read + [msg]
    requires s'.client.activeRunId ==
               if msg.verb.SessionUpdate? then RunIdAfter(s.client.activeRunId, msg.verb.update)
               else s.client.activeRunId
    requires Refused(s'.client.written) ==
               if IsUnknownRequest(msg) && !WriteCut(s'.exit)
               then Refused(s.client.written) + [(msg.id.value, msg.verb.name)]
               else Refused(s.client.written)
    requires IsResponse(msg, p.expectedId) ==>
               s'.exit == Some(if msg.error.Some? then AgentFailed(msg.error.value) else Returned(msg.result))
    requires !IsResponse(msg, p.expectedId) && s'.exit.Some? ==>
               !s'.exit.value.Returned? && !s'.exit.value.AgentFailed?
    ensures DispatchOk(p, e, s')
  {
    assert s'.client.activeRunId == Announced(e.client.activeRunId, s'.read) by {
      ReadSnoc(s.read, msg, e.client.activeRunId);
    }
    assert AllRefused(e.client.written, s'.client.written, s'.read, s'.exit) by {
      HearRefused(e.client.written, s.client.written, s'.client.written, s.read, msg, s'.exit);
    }
    assert ExitFits(p.expectedId, s'.read, s'.exit) by {
      HearFits(p.expectedId, s.read, msg, s'.exit);
    }
  }

  lemma MessageDispatch(p: Params, e: Loop, s: Loop, x: Input, msg: Message)
    requires DispatchOk(p, e, s) && s.exit.None?
    requires s.pending.Some? ==> s.pending.value.id != p.expectedId
    ensures DispatchOk(p, e, OnMessage(p, s, x, msg))
  {
    if (s.pending.Some? && IsResponse(msg, s.pending.value.id)) || IsResponse(msg, p.expectedId) {
      ResponseEffects(p, s, x, msg);
    } else {
      OtherEffects(p, s, x, msg);
    }
    HandledDispatch(p, e, s, OnMessage(p, s, x, msg), msg);
  }

  /** A response of either kind leaves the wire and the run id alone. */
  lemma ResponseEffects(p: Params, s: Loop, x: Input, msg: Message)
    requires s.exit.None? && (s.pending.Some? ==> s.pending.value.id != p.expectedId)
    requires (s.pending.Some? && IsResponse(msg, s.pending.value.id)) || IsResponse(msg, p.expectedId)
    ensures var s' := OnMessage(p, s, x, msg);
      && s'.read == s.read + [msg]
      && s'.client.activeRunId == s.client.activeRunId && s'.client.written == s.client.written
      && (if IsResponse(msg, p.expectedId)
          then s'.exit == Some(if msg.error.Some? then AgentFailed(msg.error.value) else Returned(msg.result))
          else s'.exit.None?)
  {
  }

  lemma OtherEffects(p: Params, s: Loop, x: Input, msg: Message)
    requires s.exit.None? && !(s.pending.Some? && IsResponse(msg, s.pending.value.id)) && !IsResponse(msg, p.expectedId)
    ensures OnMessage(p, s, x, msg).read == s.read + [msg]
    ensures (OnMessage(p, s, x, msg).client, OnMessage(p, s, x, msg).exit) ==
              Dispatch(s.client, msg, x.decision, x.write)
    ensures var s' := OnMessage(p, s, x, msg);
      && (Refused(s'.client.written) ==
            if IsUnknownRequest(msg) && s'.exit.None? then Refused(s.client.written) + [(msg.id.value, msg.verb.name)]
            else Refused(s.client.written))
      && s'.client.activeRunId ==
           (if msg.verb.SessionUpdate? then RunIdAfter(s.client.activeRunId, msg.verb.update)
            else s.client.activeRunId)
      && (s'.exit.Some? ==> DropsSteer(s'.exit.value))
      && (IsUnknownRequest(msg) && s'.exit.Some? ==> WriteCut(s'.exit))
  {
    DispatchRefuses(s.client, msg, x.decision, x.write);
  }

  lemma StepDispatch(p: Params, e: Loop, s: Loop, x: Input)
    requires SteerOk(p, s) && DispatchOk(p, e, s) && s.exit.None?
    ensures DispatchOk(p, e, Step(p, s, x))
  {
    StepCases(p, s, x);
    if x.arm.Steer? && s.rx && s.pending.None? {
      TakeSteerDispatch(p, e, s, x.arm.req, x.write);
    } else if x.arm.Read? && x.arm.line.Parsed? {
      MessageDispatch(p, e, s, x, x.arm.line.msg);
    }
  }

  // -------------------------------------------------------------- Whole runs

  predicate LeavesUnanswered(exit: Exit) {
    exit.IdleTimeout? || exit.HardTimeout? || exit.AgentExited? || exit.LineTooLong? || exit.ReadFailed?
  }

  lemma TimeOutIsLeave(s: Loop, now: nat)
    ensures exists exit :: TimeOut(s, now) == Leave(s, exit) && LeavesUnanswered(exit)
  {
    var silence := if now < s.lastActivity then 0 else now - s.lastActivity;
    assert TimeOut(s, now) == Leave(s, if s.idleDeadline < s.hardDeadline then IdleTimeout else HardTimeout(silence));
  }

  /** The shape of one iteration: nothing, an exit, a steer taken or a message handled. */
  lemma StepCases(p: Params, s: Loop, x: Input)
    ensures var s' := Step(p, s, x);
      || s' == s
      || (exists exit :: s' == Leave(s, exit) && LeavesUnanswered(exit))
      || (x.arm.Steer? && s.rx && s.pending.None? && s' == TakeSteer(p, s, x.arm.req, x.write))
      || (x.arm.Read? && x.arm.line.Parsed? && s' == OnMessage(p, s, x, x.arm.line.msg))
  {
    if x.top >= NextDeadline(s) {
      TimeOutIsLeave(s, x.later);
    } else if x.arm.Sleep? && x.woke >= NextDeadline(s) {
      TimeOutIsLeave(s, x.later);
    }
  }

  ghost predicate LoopOk(p: Params, e: Loop, s: Loop) {
    && ClientOk(s.client)
    && SteerOk(p, s)
    && DeadlinesOk(p, e, s)
    && DispatchOk(p, e, s)
    && s.rx == e.rx
    && s.client.steerRx == e.client.steerRx
    && s.client.steeringSupported == e.client.steeringSupported
    && (!s.rx ==> s.taken == [])
  }

  lemma EnterOk(p: Params, c: Client, hardDeadline: nat, now: nat)
    requires ClientOk(c) && p.expectedId < c.nextId
    ensures var e := Enter(c, p, hardDeadline, now); LoopOk(p, e, e)
  {
  }

  /** What an iteration never touches. */
  lemma StepFrame(p: Params, s: Loop, x: Input)
    ensures var s' := Step(p, s, x);
      && s'.rx == s.rx
      && s'.client.steerRx == s.client.steerRx
      && s'.client.steeringSupported == s.client.steeringSupported
      && (!s.rx ==> s'.taken == s.taken)
  {
    StepCases(p, s, x);
    if x.arm.Read? && x.arm.line.Parsed? {
      MessageFrame(p, s, x, x.arm.line.msg);
    } else if x.arm.Steer? {
      TakeSteerClient(p, s, x.arm.req, x.write);
    }
  }

  lemma MessageFrame(p: Params, s: Loop, x: Input, msg: Message)
    ensures var s' := OnMessage(p, s, x, msg);
      && s'.rx == s.rx && s'.taken == s.taken
      && s'.client.steerRx == s.client.steerRx
      && s'.client.steeringSupported == s.client.steeringSupported
      && s.client.written <= s'.client.written
  {
    if !(s.pending.Some? && IsResponse(msg, s.pending.value.id)) && !IsResponse(msg, p.expectedId) {
      OtherClient(p, s, x, msg);
      DispatchFrame(s.client, msg, x.decision, x.write);
      DispatchAppends(s.client, msg, x.decision, x.write);
    } else {
      ResponseFrame(p, s, x, msg);
    }
  }

  lemma OtherClient(p: Params, s: Loop, x: Input, msg: Message)
    requires !(s.pending.Some? && IsResponse(msg, s.pending.value.id)) && !IsResponse(msg, p.expectedId)
    ensures var s' := OnMessage(p, s, x, msg);
      s'.client == Dispatch(s.client, msg, x.decision, x.write).0 && s'.rx == s.rx && s'.taken == s.taken
  {
  }

  lemma ResponseFrame(p: Params, s: Loop, x: Input, msg: Message)
    requires (s.pending.Some? && IsResponse(msg, s.pending.value.id)) || IsResponse(msg, p.expectedId)
    ensures var s' := OnMessage(p, s, x, msg);
      && s'.rx == s.rx && s'.taken == s.taken
      && s'.client == s.client.(currentHardDeadline := s'.client.currentHardDeadline)
  {
  }

  lemma DispatchAppends(c: Client, msg: Message, decision: Decision, write: WriteResult)
    ensures c.written <= Dispatch(c, msg, decision, write).0.written
  {
  }

  lemma StepOk(p: Params, e: Loop, s: Loop, x: Input)
    requires LoopOk(p, e, s) && s.exit.None?
    ensures LoopOk(p, e, Step(p, s, x))
  {
    StepFrame(p, s, x);
    assert ClientOk(Step(p, s, x).client) by { StepKeepsClient(p, s, x); }
    assert SteerOk(p, Step(p, s, x)) by { StepSteer(p, s, x); }
    assert DeadlinesOk(p, e, Step(p, s, x)) by { StepDeadlines(p, e, s, x); }
    assert DispatchOk(p, e, Step(p, s, x)) by { StepDispatch(p, e, s, x); }
  }

  /** Every run of the loop keeps all of it. */
  lemma {:induction false} RunLoopOk(p: Params, e: Loop, s: Loop, script: seq<Input>)
    requires LoopOk(p, e, s)
    ensures LoopOk(p, e, RunLoop(p, s, script))
    decreases |script|
  {
    if script != [] && s.exit.None? {
      StepOk(p, e, s, script[0]);
      RunLoopOk(p, e, Step(p, s, script[0]), script[1..]);
    }
  }
}
