/** Deadline discipline within one loop, and what every sequence of prompts, cancels
    and plain requests keeps across loops. */
module AcpSessionSafety {
  import opened Json
  import opened Options
  import opened AcpMessages
  import opened AcpProtocol
  import opened AcpLoopSafety

  // ------------------------------------------------------ Within an iteration

  /** A deadline that has passed ends the loop before a line or a steer is taken, a tie
      counting as the hard one. */
  lemma DeadlineBeforeLine(p: Params, s: Loop, x: Input)
    requires s.exit.None?
    ensures var s' := Step(p, s, x);
      && (x.top >= s.hardDeadline && s.hardDeadline <= s.idleDeadline ==> s'.exit.Some? && s'.exit.value.HardTimeout?)
      && (x.top >= s.idleDeadline && s.idleDeadline < s.hardDeadline ==> s'.exit == Some(IdleTimeout))
      && (s'.read != s.read || s'.taken != s.taken ==> x.top < s.idleDeadline && x.top < s.hardDeadline)
  {
  }

  predicate TimesOut(exit: Option<Exit>) {
    exit.Some? && (exit.value.IdleTimeout? || exit.value.HardTimeout?)
  }

  lemma MessagesDoNotTimeOut(p: Params, s: Loop, x: Input, msg: Message)
    requires s.exit.None?
    ensures !TimesOut(OnMessage(p, s, x, msg).exit)
  {
    DispatchRefuses(s.client, msg, x.decision, x.write);
  }

  /** Only a passed deadline times the loop out, and it moves neither deadline. */
  lemma OnlyPassedDeadlines(p: Params, s: Loop, x: Input)
    requires s.exit.None? && TimesOut(Step(p, s, x).exit)
    ensures var s' := Step(p, s, x);
      && s'.idleDeadline == s.idleDeadline && s'.hardDeadline == s.hardDeadline
      && (s'.exit.value.IdleTimeout? <==> s.idleDeadline < s.hardDeadline)
      && (x.top >= NextDeadline(s) || x.woke >= NextDeadline(s))
  {
    if x.arm.Read? && x.arm.line.Parsed? {
      MessagesDoNotTimeOut(p, s, x, x.arm.line.msg);
    }
  }

  /** The idle clock restarts with each valid message, and with nothing else. */
  lemma IdleFollowsMessages(p: Params, s: Loop, x: Input)
    ensures var s' := Step(p, s, x);
      if s'.read == s.read then s'.idleDeadline == s.idleDeadline && s'.lastActivity == s.lastActivity
      else && x.arm == Read(Parsed(s'.read[|s.read|]))
           && s'.read == s.read + [s'.read[|s.read|]]
           && s'.lastActivity == (if s'.read[|s.read|].verb == SessionUpdate(ToolCall) then x.later else x.woke)
           && s'.idleDeadline == s'.lastActivity + p.idleTimeout
  {
    StepCases(p, s, x);
  }

  /** A steer is written under the run id last announced, or under the extension when
      no run is active and the agent advertised it; nothing else is ever written. */
  lemma SteerUsesFreshRun(p: Params, e: Loop, s: Loop, req: SteerRequest, write: WriteResult)
    requires DispatchOk(p, e, s)
    ensures var w, w' := s.client.written, TakeSteer(p, s, req, write).client.written;
      var run := Announced(e.client.activeRunId, s.read);
      if write.Written? && (run.Some? || s.client.steeringSupported) then
        w' == w + [Request(s.client.nextId,
                           if run.Some? then GooseSteer(p.session, run.value, req.blocks)
                           else AcpSteer(p.session, req.blocks))]
      else w' == w
  {
  }

  /** Handling the message returns early: a permission request that is malformed, still
      undecided or not answered, or a refusal that was not written. */
  predicate ReturnsEarly(msg: Message, decision: Decision, write: WriteResult) {
    || (msg.verb.RequestPermission? &&
        (msg.id.None? || msg.verb.options.None? || decision.Undecided? || !write.Written?))
    || (IsUnknownRequest(msg) && !write.Written?)
  }

  /** An iteration leaves the loop with a steer unacked exactly when, before any deadline, it
      handles a message that is neither the steer's response nor the prompt's and returns
      early from it, or when the future is dropped in the steer's own write. */
  lemma SteerLostIff(p: Params, s: Loop, x: Input)
    requires s.exit.None?
    ensures var s' := Step(p, s, x);
      s'.exit.Some? && s'.pending.Some? <==>
        && x.top < NextDeadline(s)
        && if s.pending.Some? then
             && x.arm.Read? && x.arm.line.Parsed?
             && !IsResponse(x.arm.line.msg, s.pending.value.id) && !IsResponse(x.arm.line.msg, p.expectedId)
             && ReturnsEarly(x.arm.line.msg, x.decision, x.write)
           else
             && x.arm.Steer? && s.rx && x.write.Stalled?
             && (s.client.activeRunId.Some? || s.client.steeringSupported)
  {
  }

  /** The first option of its kind. */
  predicate FirstOf(options: seq<PermissionOption>, kind: OptionKind, i: nat) {
    i < |options| && options[i].kind == kind && forall j :: 0 <= j < i ==> options[j].kind != kind
  }

  /** The id found is that of the first option of the kind, which there is when any option is
      of the kind; nothing is found exactly when there is none or it carries no id. */
  lemma {:induction false} FoundOption(options: seq<PermissionOption>, kind: OptionKind)
    ensures forall i: nat :: FirstOf(options, kind, i) ==> FindOption(options, kind) == options[i].optionId
    ensures (exists i :: 0 <= i < |options| && options[i].kind == kind) <==> exists i: nat :: FirstOf(options, kind, i)
    ensures FindOption(options, kind).None? <==>
              forall i: nat :: FirstOf(options, kind, i) ==> options[i].optionId.None?
  {
    if options != [] {
      if options[0].kind == kind {
        assert FirstOf(options, kind, 0);
      } else {
        FoundOption(options[1..], kind);
        FirstShifts(options, kind);
      }
    }
  }

  lemma FirstShifts(options: seq<PermissionOption>, kind: OptionKind)
    requires options != [] && options[0].kind != kind
    ensures forall i: nat :: FirstOf(options, kind, i) ==> i > 0 && FirstOf(options[1..], kind, i - 1)
    ensures forall i: nat :: FirstOf(options[1..], kind, i) ==> FirstOf(options, kind, i + 1)
    ensures (exists i :: 0 <= i < |options| && options[i].kind == kind)
            <==> exists i :: 0 <= i < |options[1..]| && options[1..][i].kind == kind
  {
    var rest := options[1..];
    assert forall i :: 0 <= i < |rest| ==> rest[i] == options[i + 1];
    assert forall i :: 0 < i < |options| ==> options[i] == rest[i - 1];
    forall i: nat | FirstOf(rest, kind, i) ensures FirstOf(options, kind, i + 1) {
      assert forall j :: 0 < j < i + 1 ==> options[j] == rest[j - 1];
    }
    forall i: nat | FirstOf(options, kind, i) ensures i > 0 && FirstOf(rest, kind, i - 1) {
      assert forall j :: 0 <= j < i - 1 ==> rest[j] == options[j + 1];
    }
  }

  /** An option offered as `allow_once` is selected only on an approval; every other
      decision selects the first `reject_once` option or answers "cancelled". */
  lemma AllowNeedsApproval(c: Client, msg: Message, decision: Decision, write: WriteResult)
    requires msg.verb.RequestPermission?
    ensures var c' := Dispatch(c, msg, decision, write).0;
      c'.written != c.written ==>
        && msg.id.Some? && msg.verb.options.Some? && decision.Decided?
        && |c'.written| == |c.written| + 1 && c'.written[..|c.written|] == c.written
        && var reply := c'.written[|c.written|];
        && reply.PermissionReply? && reply.ordinal == c.permissionsSeen && reply.replyTo == msg.id.value
        && (reply.selected.Some? ==>
              exists i :: 0 <= i < |msg.verb.options.value|
                && msg.verb.options.value[i].optionId == reply.selected
                && msg.verb.options.value[i].kind == (if decision.outcome.Approved? then AllowOnce else RejectOnce))
  {
    if msg.verb.options.Some? && decision.Decided? {
      var options, kind := msg.verb.options.value, SelectedKind(decision.outcome);
      FoundOption(options, kind);
      if FindOption(options, kind).Some? {
        var i: nat :| FirstOf(options, kind, i) && options[i].optionId.Some?;
      }
    }
  }

  // ---------------------------------------------------------------- Whole loops

  /** A run that times out did so on a clock reading at or past the deadline it blames. */
  lemma {:induction false} TimeoutsAreDue(p: Params, s: Loop, script: seq<Input>)
    requires s.exit.None?
    ensures var r := RunLoop(p, s, script);
      TimesOut(r.exit) ==>
        && (r.exit.value.IdleTimeout? <==> r.idleDeadline < r.hardDeadline)
        && exists x :: x in script && (x.top >= NextDeadline(r) || x.woke >= NextDeadline(r))
    decreases |script|
  {
    if script != [] {
      var s' := Step(p, s, script[0]);
      if s'.exit.None? {
        TimeoutsAreDue(p, s', script[1..]);
      } else if TimesOut(s'.exit) {
        OnlyPassedDeadlines(p, s, script[0]);
        assert script[0] in script;
      }
    }
  }

  // ---------------------------------------------- The loop without deadlines

  ghost predicate PlainOk(expectedId: nat, c: Client, s: Plain) {
    && ClientOk(s.client)
    && AllRefused(c.written, s.client.written, s.read, s.exit)
    && ExitFits(expectedId, s.read, s.exit)
    && s.client.lastPromptId == c.lastPromptId
    && s.client.currentHardDeadline == c.currentHardDeadline
    && s.client.steerRx == c.steerRx
  }

  lemma PlainStepOk(expectedId: nat, c: Client, s: Plain, x: Input)
    requires PlainOk(expectedId, c, s) && s.exit.None?
    ensures PlainOk(expectedId, c, PlainStep(expectedId, s, x))
  {
    if x.arm.Read? && x.arm.line.Parsed? {
      var msg, s' := x.arm.line.msg, PlainStep(expectedId, s, x);
      DispatchFrame(s.client, msg, x.decision, x.write);
      DispatchRefuses(s.client, msg, x.decision, x.write);
      HearRefused(c.written, s.client.written, s'.client.written, s.read, msg, s'.exit);
      HearFits(expectedId, s.read, msg, s'.exit);
      DispatchKeepsClient(s.client, msg, x.decision, x.write);
    }
  }

  /** The plain loop ends on the first response to its request and refuses each unknown
      request on the way exactly once. */
  lemma {:induction false} RunPlainOk(expectedId: nat, c: Client, s: Plain, script: seq<Input>)
    requires PlainOk(expectedId, c, s)
    ensures PlainOk(expectedId, c, RunPlain(expectedId, s, script))
    decreases |script|
  {
    if script != [] && s.exit.None? {
      PlainStepOk(expectedId, c, s, script[0]);
      RunPlainOk(expectedId, c, PlainStep(expectedId, s, script[0]), script[1..]);
    }
  }

  // -------------------------------------------------------- Operation by operation

  /** The prompt on the wire still has a deadline for its cancel to inherit, and no
      deadline outlives its prompt. */
  predicate Paired(c: Client) {
    c.lastPromptId.Some? <==> c.currentHardDeadline.Some?
  }

  lemma StartedOk(c: Client, maxDuration: nat, env: PromptEnv)
    requires ClientOk(c)
    ensures ClientOk(PromptStarted(c, maxDuration, env))
    ensures ClientOk(ClearTurn(PromptStarted(c, maxDuration, env)))
  {
  }

  lemma PromptSentOk(c: Client, session: string, blocks: seq<string>, maxDuration: nat, env: PromptEnv)
    requires ClientOk(c)
    ensures ClientOk(PromptSent(c, session, blocks, maxDuration, env))
  {
  }

  lemma PromptLoopOk(c: Client, session: string, blocks: seq<string>,
                     idleTimeout: nat, maxDuration: nat, env: PromptEnv)
    requires ClientOk(c)
    ensures var p := PromptParams(c, session, idleTimeout, maxDuration);
      var e := Enter(PromptSent(c, session, blocks, maxDuration, env), p, env.start + maxDuration, env.enter);
      LoopOk(p, e, PromptLoop(c, session, blocks, idleTimeout, maxDuration, env))
  {
    var p := PromptParams(c, session, idleTimeout, maxDuration);
    var sent := PromptSent(c, session, blocks, maxDuration, env);
    PromptSentOk(c, session, blocks, maxDuration, env);
    EnterOk(p, sent, env.start + maxDuration, env.enter);
    var e := Enter(sent, p, env.start + maxDuration, env.enter);
    RunLoopOk(p, e, e, env.script);
  }

  /** While its loop runs, a prompt and its deadline are both recorded, the deadline
      being the loop's own. */
  lemma PromptLoopPaired(c: Client, session: string, blocks: seq<string>,
                         idleTimeout: nat, maxDuration: nat, env: PromptEnv)
    requires ClientOk(c)
    ensures var s := PromptLoop(c, session, blocks, idleTimeout, maxDuration, env);
      && s.client.lastPromptId == Some(c.nextId)
      && s.client.currentHardDeadline == Some(s.hardDeadline)
      && s.hardDeadline == Renewed(env.start + maxDuration, s.acks, maxDuration)
  {
    PromptLoopOk(c, session, blocks, idleTimeout, maxDuration, env);
  }

  lemma SettleOk(c: Client, exit: Option<Exit>)
    requires ClientOk(c)
    ensures ClientOk(Settle(c, exit))
  {
  }

  /** A prompt leaves the pair set exactly when it is still to be cancelled. */
  lemma PromptPaired(c: Client, session: string, blocks: seq<string>,
                     idleTimeout: nat, maxDuration: nat, env: PromptEnv)
    requires ClientOk(c)
    ensures var (c', exit) := RunPrompt(c, session, blocks, idleTimeout, maxDuration, env);
      && Paired(c')
      && (c'.lastPromptId.Some? <==>
            exit.None? || exit.value.Suspended? || exit.value.IdleTimeout? || exit.value.HardTimeout?)
      && (c'.lastPromptId.Some? ==> c'.lastPromptId == Some(c.nextId))
  {
    PromptLoopPaired(c, session, blocks, idleTimeout, maxDuration, env);
  }

  lemma PromptKeeps(c: Client, session: string, blocks: seq<string>, idleTimeout: nat, maxDuration: nat, env: PromptEnv)
    requires ClientOk(c)
    ensures ClientOk(RunPrompt(c, session, blocks, idleTimeout, maxDuration, env).0)
  {
    if env.write.Written? {
      PromptLoopOk(c, session, blocks, idleTimeout, maxDuration, env);
      var s := PromptLoop(c, session, blocks, idleTimeout, maxDuration, env);
      SettleOk(s.client, s.exit);
    } else {
      StartedOk(c, maxDuration, env);
    }
  }

  lemma CancelPermissionKeeps(c: Client, write: WriteResult)
    requires ClientOk(c)
    ensures var (c', exit) := CancelPermission(c, write);
      && ClientOk(c')
      && c'.nextId == c.nextId && c'.steerRx == c.steerRx && c'.activeRunId == c.activeRunId
      && c'.lastPromptId == c.lastPromptId && c'.currentHardDeadline == c.currentHardDeadline
      && (exit.None? ==> c'.pendingPermission.None?)
  {
  }

  lemma DrainStartOk(c: Client, session: string, promptId: nat, hardDeadline: nat, env: CancelEnv)
    requires ClientOk(c) && promptId < c.nextId
    ensures var e := DrainStart(c, session, promptId, hardDeadline, env);
      LoopOk(DrainParams(session, promptId, hardDeadline, env.measure), e, e)
  {
    EnterOk(DrainParams(session, promptId, hardDeadline, env.measure),
            c.(written := c.written + [CancelNotice(session)]), hardDeadline, env.enter);
  }

  /** A cancel consumes the prompt; without an installed steer receiver it leaves no
      deadline behind either. */
  lemma CancelUntilKeeps(c: Client, session: string, hardDeadline: nat, env: CancelEnv)
    requires ClientOk(c) && c.currentHardDeadline.None?
    ensures var (c', exit) := CancelUntil(c, session, hardDeadline, env);
      && ClientOk(c')
      && c'.lastPromptId.None?
      && (!c.steerRx ==> c'.currentHardDeadline.None?)
      && (exit.NoPrompt? <==> c.lastPromptId.None?)
  {
    if c.lastPromptId.Some? {
      var promptId := c.lastPromptId.value;
      CancelPermissionKeeps(c.(lastPromptId := None), env.reply);
      var (answered, early) := CancelPermission(c.(lastPromptId := None), env.reply);
      if early.None? && env.notice.Written? {
        var p := DrainParams(session, promptId, hardDeadline, env.measure);
        var e := DrainStart(answered, session, promptId, hardDeadline, env);
        DrainStartOk(answered, session, promptId, hardDeadline, env);
        RunLoopOk(p, e, e, env.script);
      }
    }
  }

  /** A drain of `cancel_with_cleanup` runs into its hard timeout only at or past the later
      of the turn's last renewed deadline and thirty seconds from its start. */
  lemma CancelDrainsLongEnough(c: Client, session: string, env: CancelEnv)
    requires ClientOk(c)
    ensures var exit := Cancel(c, session, env).1;
      var until := if c.currentHardDeadline.Some? && c.currentHardDeadline.value > env.start + 30
                   then c.currentHardDeadline.value else env.start + 30;
      exit.Drained? && exit.exit.Some? && exit.exit.value.HardTimeout? ==>
        exists x :: x in env.script && (x.top >= until || x.woke >= until)
  {
    var taken := c.(currentHardDeadline := None);
    var hardDeadline := DrainDeadline(c, env.start);
    if c.lastPromptId.Some? {
      var promptId := c.lastPromptId.value;
      CancelPermissionKeeps(taken.(lastPromptId := None), env.reply);
      var (answered, early) := CancelPermission(taken.(lastPromptId := None), env.reply);
      if early.None? && env.notice.Written? {
        var p := DrainParams(session, promptId, hardDeadline, env.measure);
        var e := DrainStart(answered, session, promptId, hardDeadline, env);
        DrainStartOk(answered, session, promptId, hardDeadline, env);
        RunLoopOk(p, e, e, env.script);
        TimeoutsAreDue(p, e, env.script);
      }
    }
  }

  // ---------------------------------------------------------- How long a drain lasts

  /** Without a steer receiver no line is read, and the loop is left, in an iteration that
      starts at or past the deadline the drain was given. */
  lemma DrainIsBounded(c: Client, session: string, promptId: nat, hardDeadline: nat, env: CancelEnv, k: nat)
    requires ClientOk(c) && promptId < c.nextId && !c.steerRx && k < |env.script|
    ensures var p := DrainParams(session, promptId, hardDeadline, env.measure);
      var s := RunLoop(p, DrainStart(c, session, promptId, hardDeadline, env), env.script[..k]);
      s.exit.None? && env.script[k].top >= hardDeadline ==>
        Step(p, s, env.script[k]).read == s.read && Step(p, s, env.script[k]).exit.Some?
  {
    var p := DrainParams(session, promptId, hardDeadline, env.measure);
    var e := DrainStart(c, session, promptId, hardDeadline, env);
    DrainStartOk(c, session, promptId, hardDeadline, env);
    RunLoopOk(p, e, e, env.script[..k]);
    var s := RunLoop(p, e, env.script[..k]);
    assert s.taken == [] && s.acks == [] && s.hardDeadline == hardDeadline;
    if s.exit.None? {
      DeadlineBeforeLine(p, s, env.script[k]);
    }
  }

  lemma {:induction false} ActivityAfterEntry(p: Params, s: Loop, script: seq<Input>, from: nat)
    requires s.lastActivity >= from
    requires forall i :: 0 <= i < |script| ==> from <= script[i].woke && from <= script[i].later
    ensures RunLoop(p, s, script).lastActivity >= from
    decreases |script|
  {
    if script != [] && s.exit.None? {
      IdleFollowsMessages(p, s, script[0]);
      ActivityAfterEntry(p, Step(p, s, script[0]), script[1..], from);
    }
  }

  /** Some reading of the cancel's loop is at or past `until`. */
  ghost predicate SawReading(env: CancelEnv, until: nat) {
    exists x :: x in env.script && (x.top >= until || x.woke >= until)
  }

  predicate DrainTimesOut(exit: CancelExit) {
    exit.Drained? && TimesOut(exit.exit)
  }

  lemma DrainTimesOutLate(c: Client, session: string, promptId: nat, hardDeadline: nat, env: CancelEnv)
    requires ClientOk(c) && promptId < c.nextId && Ticking(env) && env.start + CLEANUP_GRACE <= hardDeadline
    ensures var p := DrainParams(session, promptId, hardDeadline, env.measure);
      TimesOut(RunLoop(p, DrainStart(c, session, promptId, hardDeadline, env), env.script).exit) ==>
        SawReading(env, env.start + CLEANUP_GRACE)
  {
    var p := DrainParams(session, promptId, hardDeadline, env.measure);
    var e := DrainStart(c, session, promptId, hardDeadline, env);
    DrainStartOk(c, session, promptId, hardDeadline, env);
    RunLoopOk(p, e, e, env.script);
    TimeoutsAreDue(p, e, env.script);
    ActivityAfterEntry(p, e, env.script, env.start);
    var r := RunLoop(p, e, env.script);
    if TimesOut(r.exit) {
      assert NextDeadline(r) >= env.start + CLEANUP_GRACE;
      var x :| x in env.script && (x.top >= NextDeadline(r) || x.woke >= NextDeadline(r));
      assert x.top >= env.start + CLEANUP_GRACE || x.woke >= env.start + CLEANUP_GRACE;
    }
  }

  /** No timeout of either kind ends a drain within thirty seconds of its start. */
  lemma NoEarlyTimeout(c: Client, session: string, env: CancelEnv)
    requires ClientOk(c) && Ticking(env) && DrainTimesOut(Cancel(c, session, env).1)
    ensures SawReading(env, env.start + CLEANUP_GRACE)
  {
    var taken := c.(currentHardDeadline := None);
    var promptId := c.lastPromptId.value;
    CancelPermissionKeeps(taken.(lastPromptId := None), env.reply);
    var (answered, early) := CancelPermission(taken.(lastPromptId := None), env.reply);
    DrainTimesOutLate(answered, session, promptId, DrainDeadline(c, env.start), env);
  }

  /** Thirty seconds without a line. */
  function Silence(start: nat): CancelEnv {
    CancelEnv(start, Written, Written, start, start,
              [Input(start + CLEANUP_GRACE, Sleep, start + CLEANUP_GRACE, start + CLEANUP_GRACE, Written, Undecided)])
  }

  /** Silence ends a drain on its fixed idle timeout, however far off its deadline is. */
  lemma SilenceEndsDrain(c: Client, session: string, start: nat)
    requires ClientOk(c) && c.lastPromptId.Some? && DrainDeadline(c, start) > start + CLEANUP_GRACE
    ensures Ticking(Silence(start)) && Cancel(c, session, Silence(start)).1 == Drained(Some(IdleTimeout))
    ensures !SawReading(Silence(start), DrainDeadline(c, start))
  {
    var env := Silence(start);
    var taken := c.(currentHardDeadline := None);
    CancelPermissionKeeps(taken.(lastPromptId := None), Written);
    var (answered, early) := CancelPermission(taken.(lastPromptId := None), Written);
    assert early.None?;
    var p := DrainParams(session, c.lastPromptId.value, DrainDeadline(c, start), start);
    var e := DrainStart(answered, session, c.lastPromptId.value, DrainDeadline(c, start), env);
    assert e.idleDeadline == start + CLEANUP_GRACE && e.pending.None?;
    var s := Step(p, e, env.script[0]);
    assert s.exit == Some(IdleTimeout);
    assert RunLoop(p, e, env.script) == RunLoop(p, s, env.script[1..]) == s;
  }

  /** A timed-out `cancel_with_cleanup` has always waited for the deadline it inherited
      exactly when there is no prompt to drain or that deadline is not the later one. */
  lemma DrainWaitsIff(c: Client, session: string, start: nat)
    requires ClientOk(c)
    ensures (forall env: CancelEnv ::
               Ticking(env) && env.start == start && DrainTimesOut(Cancel(c, session, env).1) ==>
                 SawReading(env, DrainDeadline(c, start)))
            <==> c.lastPromptId.None? || DrainDeadline(c, start) == start + CLEANUP_GRACE
  {
    if c.lastPromptId.Some? && DrainDeadline(c, start) != start + CLEANUP_GRACE {
      SilenceEndsDrain(c, session, start);
      assert DrainTimesOut(Cancel(c, session, Silence(start)).1);
    } else {
      forall env: CancelEnv | Ticking(env) && env.start == start && DrainTimesOut(Cancel(c, session, env).1)
        ensures SawReading(env, DrainDeadline(c, start))
      {
        NoEarlyTimeout(c, session, env);
      }
    }
  }

  // -------------------------------------------------------------- On the wire

  lemma StepAppends(p: Params, s: Loop, x: Input)
    ensures s.client.written <= Step(p, s, x).client.written
  {
    StepCases(p, s, x);
    if x.arm.Read? && x.arm.line.Parsed? {
      MessageFrame(p, s, x, x.arm.line.msg);
    } else if x.arm.Steer? {
      TakeSteerClient(p, s, x.arm.req, x.write);
    }
  }

  /** Lines once written stay, in their order. */
  lemma {:induction false} RunAppends(p: Params, s: Loop, script: seq<Input>)
    ensures s.client.written <= RunLoop(p, s, script).client.written
    decreases |script|
  {
    if script != [] && s.exit.None? {
      StepAppends(p, s, script[0]);
      RunAppends(p, Step(p, s, script[0]), script[1..]);
    }
  }

  /** A prompt whose write succeeds is the next line on the wire, under the id it records. */
  lemma PromptOnTheWire(c: Client, session: string, blocks: seq<string>,
                        idleTimeout: nat, maxDuration: nat, env: PromptEnv)
    ensures var w := RunPrompt(c, session, blocks, idleTimeout, maxDuration, env).0.written;
      if env.write.Written? then c.written + [Request(c.nextId, Prompt(session, blocks))] <= w else w == c.written
  {
    var p := PromptParams(c, session, idleTimeout, maxDuration);
    var e := Enter(PromptSent(c, session, blocks, maxDuration, env), p, env.start + maxDuration, env.enter);
    RunAppends(p, e, env.script);
  }

  /** The cancelled reply a cancel owes to a pending permission request. */
  function OwedReply(c: Client): seq<Wire> {
    match c.pendingPermission
    case None => []
    case Some(pending) => if c.permissionResponded then [] else [PermissionReply(pending.ordinal, pending.id, None)]
  }

  /** A cancel first answers the pending permission request as cancelled, then sends the
      cancel notice, and writes nothing at all without a prompt in flight. */
  lemma CancelOnTheWire(c: Client, session: string, hardDeadline: nat, env: CancelEnv)
    ensures var w := CancelUntil(c, session, hardDeadline, env).0.written;
      if c.lastPromptId.None? || (OwedReply(c) != [] && !env.reply.Written?) then w == c.written
      else if !env.notice.Written? then w == c.written + OwedReply(c)
      else c.written + OwedReply(c) + [CancelNotice(session)] <= w
  {
    if c.lastPromptId.Some? {
      var promptId := c.lastPromptId.value;
      var (answered, early) := CancelPermission(c.(lastPromptId := None), env.reply);
      assert early.None? ==> answered.written == c.written + OwedReply(c);
      if early.None? && env.notice.Written? {
        RunAppends(DrainParams(session, promptId, hardDeadline, env.measure),
                   DrainStart(answered, session, promptId, hardDeadline, env), env.script);
      }
    }
  }

  // ----------------------------------------- When a cancel can break the pairing

  /** A script in which the agent announces a run, a steer goes out under it and is
      accepted one second into the drain. */
  function LateSteer(steerId: nat): seq<Input> {
    var announce := Message(None, SessionUpdate(RunId(Some("run"))), None, Null, Unrecognised(None));
    var accept := Message(Some(Int(steerId)), NoMethod, None, Null, Unrecognised(None));
    [Input(0, Read(Parsed(announce)), 0, 0, Written, Undecided),
     Input(0, Steer(SteerRequest(0, [])), 0, 0, Written, Undecided),
     Input(0, Read(Parsed(accept)), 0, 1, Written, Undecided)]
  }

  lemma LateSteerRenews(p: Params, e: Loop, script: seq<Input>)
    requires script == LateSteer(e.client.nextId)
    requires e.exit.None? && e.pending.None? && e.rx
    requires e.idleDeadline > 0 && e.hardDeadline > 0 && p.idleTimeout > 0 && p.expectedId < e.client.nextId
    requires 1 + p.maxDuration > e.hardDeadline
    ensures RunLoop(p, e, script).client.currentHardDeadline.Some?
  {
    var s1 := Step(p, e, script[0]);
    assert s1.client.activeRunId == Some("run") && s1.exit.None?;
    var s2 := Step(p, s1, script[1]);
    assert s2.pending == Some(PendingSteer(e.client.nextId, Goose, 0)) && s2.exit.None?;
    var s3 := Step(p, s2, script[2]);
    assert s3.client.currentHardDeadline == Some(1 + p.maxDuration);
    assert RunLoop(p, e, script) == RunLoop(p, s1, script[1..]);
    assert script[1..][0] == script[1];
    assert RunLoop(p, s1, script[1..]) == RunLoop(p, s2, script[1..][1..]);
    assert script[1..][1..] == [script[2]];
    assert RunLoop(p, s2, [script[2]]) == s3;
  }

  /** The readings of a cancel come from a clock that never goes back. */
  ghost predicate Ticking(env: CancelEnv) {
    && env.start <= env.measure <= env.enter
    && (forall i :: 0 <= i < |env.script| ==>
          env.enter <= env.script[i].top <= env.script[i].woke <= env.script[i].later)
    && (forall i, j :: 0 <= i < j < |env.script| ==> env.script[i].later <= env.script[j].top)
  }

  lemma InstalledReceiverBreaksPairing(c: Client, session: string, hardDeadline: nat)
    returns (env: CancelEnv)
    requires ClientOk(c) && c.currentHardDeadline.None?
    requires c.steerRx && c.lastPromptId.Some? && hardDeadline > 0
    ensures env.start == 0 && Ticking(env) && !Paired(CancelUntil(c, session, hardDeadline, env).0)
  {
    env := CancelEnv(0, Written, Written, 0, 0, LateSteer(c.nextId));
    var promptId := c.lastPromptId.value;
    CancelPermissionKeeps(c.(lastPromptId := None), Written);
    var (answered, early) := CancelPermission(c.(lastPromptId := None), Written);
    assert early.None?;
    var p := DrainParams(session, promptId, hardDeadline, 0);
    var e := DrainStart(answered, session, promptId, hardDeadline, env);
    LateSteerRenews(p, e, env.script);
    DrainStartOk(answered, session, promptId, hardDeadline, env);
    RunLoopOk(p, e, e, env.script);
  }

  /** `cancel_with_cleanup` keeps prompt and deadline paired on every run exactly when it
      is entered without a prompt or without an installed steer receiver. A prompt
      dropped while its own line is being written leaves the receiver installed. */
  lemma CancelPairedIff(c: Client, session: string)
    requires ClientOk(c)
    ensures (forall env: CancelEnv :: Ticking(env) ==> Paired(Cancel(c, session, env).0))
            <==> c.lastPromptId.None? || !c.steerRx
  {
    var taken := c.(currentHardDeadline := None);
    if c.lastPromptId.Some? && c.steerRx {
      var env := InstalledReceiverBreaksPairing(taken, session, DrainDeadline(c, 0));
      assert !Paired(Cancel(c, session, env).0);
    } else {
      forall env: CancelEnv ensures Paired(Cancel(c, session, env).0) {
        CancelUntilKeeps(taken, session, DrainDeadline(c, env.start), env);
      }
    }
  }

  /** A drain whose deadline has passed on entry takes no steer. */
  lemma NoTimeNoRenewal(c: Client, session: string, env: CancelEnv)
    requires ClientOk(c) && c.currentHardDeadline.None? && Ticking(env)
    ensures Paired(CancelUntil(c, session, env.start, env).0)
  {
    CancelUntilKeeps(c, session, env.start, env);
    if c.lastPromptId.Some? {
      var promptId := c.lastPromptId.value;
      CancelPermissionKeeps(c.(lastPromptId := None), env.reply);
      var (answered, early) := CancelPermission(c.(lastPromptId := None), env.reply);
      if early.None? && env.notice.Written? && env.script != [] {
        var p := DrainParams(session, promptId, env.start, env.measure);
        var e := DrainStart(answered, session, promptId, env.start, env);
        var s := TimeOut(e, env.script[0].later);
        assert Step(p, e, env.script[0]) == s;
        assert RunLoop(p, e, env.script) == RunLoop(p, s, env.script[1..]) == s;
      }
    }
  }

  /** The bounded variant also keeps the pairing when it is given no time at all. */
  lemma CancelGracePairedIff(c: Client, session: string, grace: nat)
    requires ClientOk(c)
    ensures (forall env: CancelEnv :: Ticking(env) ==> Paired(CancelGrace(c, session, grace, env).0))
            <==> c.lastPromptId.None? || !c.steerRx || grace == 0
  {
    var taken := c.(currentHardDeadline := None);
    if c.lastPromptId.Some? && c.steerRx && grace > 0 {
      var env := InstalledReceiverBreaksPairing(taken, session, grace);
      assert !Paired(CancelGrace(c, session, grace, env).0);
    } else {
      forall env: CancelEnv | Ticking(env) ensures Paired(CancelGrace(c, session, grace, env).0) {
        CancelUntilKeeps(taken, session, env.start + grace, env);
        if grace == 0 {
          NoTimeNoRenewal(taken, session, env);
        }
      }
    }
  }

  // ------------------------------------------------------------- Whole sessions

  datatype Op =
    | InstallSteer
    | ClearSteer
    | DoPrompt(session: string, blocks: seq<string>, idleTimeout: nat, maxDuration: nat, promptEnv: PromptEnv)
    | DoCancel(session: string, cancelEnv: CancelEnv)
    | DoCancelGrace(session: string, grace: nat, cancelEnv: CancelEnv)
    | DoCall(name: string, params: Json, write: WriteResult, script: seq<Input>)
    | DoInitialize(params: Json, write: WriteResult, script: seq<Input>)

  function Perform(c: Client, op: Op): Client {
    match op
    case InstallSteer => c.(steerRx := true)
    case ClearSteer => c.(steerRx := false)
    case DoPrompt(session, blocks, idle, max, env) => RunPrompt(c, session, blocks, idle, max, env).0
    case DoCancel(session, env) => Cancel(c, session, env).0
    case DoCancelGrace(session, grace, env) => CancelGrace(c, session, grace, env).0
    case DoCall(name, params, write, script) => SendRequest(c, Other(name, params), write, script).0
    case DoInitialize(params, write, script) => Initialize(c, params, write, script).0
  }

  function PerformAll(c: Client, ops: seq<Op>): Client
    decreases |ops|
  {
    if ops == [] then c else PerformAll(Perform(c, ops[0]), ops[1..])
  }

  lemma CallKeeps(c: Client, call: Call, write: WriteResult, script: seq<Input>)
    requires ClientOk(c) && call.Other?
    ensures var c' := SendRequest(c, call, write, script).0;
      && ClientOk(c')
      && c'.lastPromptId == c.lastPromptId && c'.currentHardDeadline == c.currentHardDeadline
  {
    var id := c.nextId;
    SteerKeepsClient(c, call);
    var sent := c.(nextId := id + 1, written := c.written + [Request(id, call)]);
    RunPlainOk(id, sent, Plain(sent, [], None), script);
  }

  lemma InitializedKeeps(c: Client, result: Json)
    requires ClientOk(c)
    ensures ClientOk(Initialized(c, result))
  {
    var longer := c.initialized + [result];
    if EverAdvertised(c.initialized) {
      var i :| 0 <= i < |c.initialized| && Advertises(c.initialized[i]);
      assert Advertises(longer[i]);
    }
  }

  lemma InitializeKeeps(c: Client, params: Json, write: WriteResult, script: seq<Input>)
    requires ClientOk(c)
    ensures var c' := Initialize(c, params, write, script).0;
      && ClientOk(c')
      && c'.lastPromptId == c.lastPromptId && c'.currentHardDeadline == c.currentHardDeadline
  {
    var call := Other("initialize", params);
    CallKeeps(c, call, write, script);
    var (c', exit) := SendRequest(c, call, write, script);
    if exit.Some? && exit.value.Returned? {
      InitializedKeeps(c', exit.value.result);
    }
  }

  lemma PerformKeeps(c: Client, op: Op)
    requires ClientOk(c)
    ensures ClientOk(Perform(c, op))
  {
    match op
    case InstallSteer =>
    case ClearSteer =>
    case DoPrompt(session, blocks, idle, max, env) => PromptKeeps(c, session, blocks, idle, max, env);
    case DoCancel(session, env) =>
      CancelUntilKeeps(c.(currentHardDeadline := None), session, DrainDeadline(c, env.start), env);
    case DoCancelGrace(session, grace, env) =>
      CancelUntilKeeps(c.(currentHardDeadline := None), session, env.start + grace, env);
    case DoCall(name, params, write, script) => CallKeeps(c, Other(name, params), write, script);
    case DoInitialize(params, write, script) => InitializeKeeps(c, params, write, script);
  }

  /** Over every session: request ids are never reused, each permission request has at
      most one reply, a pending one has none, and unadvertised steering is never used. */
  lemma {:induction false} SessionsKeepClientOk(c: Client, ops: seq<Op>)
    requires ClientOk(c)
    ensures ClientOk(PerformAll(c, ops))
    decreases |ops|
  {
    if ops != [] {
      PerformKeeps(c, ops[0]);
      SessionsKeepClientOk(Perform(c, ops[0]), ops[1..]);
    }
  }

  /** No cancel of the session is entered while a steer receiver is installed. */
  predicate ReceiverClearedBeforeCancel(c: Client, ops: seq<Op>)
    decreases |ops|
  {
    ops != [] ==>
      && (ops[0].DoCancel? || ops[0].DoCancelGrace? ==> !c.steerRx)
      && ReceiverClearedBeforeCancel(Perform(c, ops[0]), ops[1..])
  }

  lemma PerformPaired(c: Client, op: Op)
    requires ClientOk(c) && Paired(c)
    requires op.DoCancel? || op.DoCancelGrace? ==> !c.steerRx
    ensures Paired(Perform(c, op))
  {
    match op
    case InstallSteer =>
    case ClearSteer =>
    case DoPrompt(session, blocks, idle, max, env) => PromptPaired(c, session, blocks, idle, max, env);
    case DoCancel(session, env) =>
      CancelUntilKeeps(c.(currentHardDeadline := None), session, DrainDeadline(c, env.start), env);
    case DoCancelGrace(session, grace, env) =>
      CancelUntilKeeps(c.(currentHardDeadline := None), session, env.start + grace, env);
    case DoCall(name, params, write, script) => CallKeeps(c, Other(name, params), write, script);
    case DoInitialize(params, write, script) => InitializeKeeps(c, params, write, script);
  }

  /** Then prompt and deadline stay paired over the whole session. */
  lemma {:induction false} SessionsKeepPaired(c: Client, ops: seq<Op>)
    requires ClientOk(c) && Paired(c) && ReceiverClearedBeforeCancel(c, ops)
    ensures Paired(PerformAll(c, ops))
    decreases |ops|
  {
    if ops != [] {
      PerformKeeps(c, ops[0]);
      PerformPaired(c, ops[0]);
      SessionsKeepPaired(Perform(c, ops[0]), ops[1..]);
    }
  }

  /** Of every client that was spawned and then used in any way: ids on the wire only grow,
      a permission request has at most one reply and a pending one none, and a steering
      call is there only if an `initialize` result advertised the extension. */
  lemma SpawnedSessions(ops: seq<Op>)
    ensures ClientOk(PerformAll(Spawned(), ops))
  {
    SessionsKeepClientOk(Spawned(), ops);
  }

  lemma SpawnedSessionsPaired(ops: seq<Op>)
    requires ReceiverClearedBeforeCancel(Spawned(), ops)
    ensures Paired(PerformAll(Spawned(), ops))
  {
    SessionsKeepPaired(Spawned(), ops);
  }

  /** A future dropped between iterations leaves at most the one steer in flight unacked;
      after any other exit but the ones above every steer taken has its one ack. */
  lemma UnackedIsInFlight(p: Params, e: Loop, script: seq<Input>)
    requires LoopOk(p, e, e)
    ensures var r := RunLoop(p, e, script);
      && |r.taken| == |r.acks| + (if r.pending.Some? then 1 else 0)
      && (r.pending.Some? ==> r.exit.None? || DropsSteer(r.exit.value))
  {
    RunLoopOk(p, e, e, script);
  }

  /** What a control signal does while the prompt's own line is being written: the prompt is
      dropped with its receiver still installed, and the cancel finds it there. */
  function DroppedInWrite(session: string): seq<Op> {
    [InstallSteer, DoPrompt(session, [], 1, 1, PromptEnv(0, Stalled, 0, []))]
  }

  lemma DroppedInWriteState(session: string)
    ensures var c := PerformAll(Spawned(), DroppedInWrite(session));
      ClientOk(c) && Paired(c) && c.steerRx && c.lastPromptId.Some?
  {
    var ops := DroppedInWrite(session);
    var c1 := Perform(Spawned(), ops[0]);
    var c2 := Perform(c1, ops[1]);
    assert ops[1..] == [ops[1]] && ops[1..][1..] == [];
    assert PerformAll(Spawned(), ops) == PerformAll(c1, ops[1..]) == c2;
    SpawnedSessions(ops);
  }

  lemma {:induction false} PerformAllSnoc(c: Client, ops: seq<Op>, op: Op)
    ensures PerformAll(c, ops + [op]) == Perform(PerformAll(c, ops), op)
    decreases |ops|
  {
    if ops == [] {
      assert (ops + [op])[1..] == [];
    } else {
      assert (ops + [op])[1..] == ops[1..] + [op];
      PerformAllSnoc(Perform(c, ops[0]), ops[1..], op);
    }
  }

  lemma BothCancelsBreak(c: Client, session: string, grace: nat) returns (plain: CancelEnv, bounded: CancelEnv)
    requires ClientOk(c) && c.steerRx && c.lastPromptId.Some? && grace > 0
    ensures Ticking(plain) && !Paired(Cancel(c, session, plain).0)
    ensures Ticking(bounded) && !Paired(CancelGrace(c, session, grace, bounded).0)
  {
    CancelPairedIff(c, session);
    plain :| Ticking(plain) && !Paired(Cancel(c, session, plain).0);
    CancelGracePairedIff(c, session, grace);
    bounded :| Ticking(bounded) && !Paired(CancelGrace(c, session, grace, bounded).0);
  }

  /** So a spawned client can get into the state that breaks the pairing, by either cancel. */
  lemma BreakIsReachable(session: string, grace: nat) returns (plain: CancelEnv, bounded: CancelEnv)
    requires grace > 0
    ensures Ticking(plain) && Ticking(bounded)
    ensures !Paired(PerformAll(Spawned(), DroppedInWrite(session) + [DoCancel(session, plain)]))
    ensures !Paired(PerformAll(Spawned(), DroppedInWrite(session) + [DoCancelGrace(session, grace, bounded)]))
  {
    var c := PerformAll(Spawned(), DroppedInWrite(session));
    DroppedInWriteState(session);
    plain, bounded := BothCancelsBreak(c, session, grace);
    PerformAllSnoc(Spawned(), DroppedInWrite(session), DoCancel(session, plain));
    PerformAllSnoc(Spawned(), DroppedInWrite(session), DoCancelGrace(session, grace, bounded));
  }
}
