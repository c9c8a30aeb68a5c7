/** What becomes of a permission request, step by step, in every state the broker can be in. */
module PermissionAnswers {
  import opened Options
  import opened PermissionBroker

  // ------------------------------------------------------------------ Requests

  /** A request is made exactly for an observed agent of a known index in a session and turn,
      by a runtime with two valid keys, a relay and a nonce; its binding names all of them. */
  lemma BindingFields(who: Identity, observed: bool, agentIndex: Option<nat>, ctx: Context, freshId: string)
    ensures var b := BindingFor(who, observed, agentIndex, ctx, freshId);
      && (b.Some? <==>
            && observed && agentIndex.Some? && ctx.sessionId.Some? && ctx.turnId.Some?
            && ValidPubkey(who.ownerPubkey) && ValidPubkey(who.agentPubkey)
            && who.relayUrl != "" && who.runtimeStartNonce != "")
      && (b.Some? ==>
            && b.value.requestId == freshId && b.value.agentIndex == agentIndex.value
            && b.value.ownerPubkey == who.ownerPubkey && b.value.agentPubkey == who.agentPubkey
            && b.value.relayUrl == who.relayUrl && b.value.runtimeStartNonce == who.runtimeStartNonce
            && b.value.sessionId == ctx.sessionId.value && b.value.turnId == ctx.turnId.value
            && b.value.channelId == ctx.channelId)
  {
  }

  /** A key is valid when it is 64 hexadecimal digits. */
  lemma ValidPubkeyIff(key: string)
    ensures ValidPubkey(key) <==> |key| == 64 && forall c :: c in key ==> c in "0123456789abcdefABCDEF"
  {
    var digits := "0123456789abcdefABCDEF";
    forall c: char ensures HexDigit(c) <==> c in digits {
      if '0' <= c <= '9' {
        assert digits[c as int - '0' as int] == c;
      } else if 'a' <= c <= 'f' {
        assert digits[c as int - 'a' as int + 10] == c;
      } else if 'A' <= c <= 'F' {
        assert digits[c as int - 'A' as int + 16] == c;
      }
    }
    assert forall i :: 0 <= i < |key| ==> key[i] in key;
  }

  /** In every reachable state the request under an id is bound to that id and to this
      runtime's owner, agent, relay and nonce. */
  lemma BindingsAreOwn(who: Identity, limit: nat, timeout: nat, steps: seq<Step>, id: string)
    requires id in Run(Start(who, limit, timeout), steps).tasks
    ensures var b := Run(Start(who, limit, timeout), steps).tasks[id].binding;
      && b.requestId == id
      && b.ownerPubkey == who.ownerPubkey && b.agentPubkey == who.agentPubkey
      && b.relayUrl == who.relayUrl && b.runtimeStartNonce == who.runtimeStartNonce
      && ValidPubkey(b.ownerPubkey) && ValidPubkey(b.agentPubkey) && b.relayUrl != "" && b.runtimeStartNonce != ""
  {
    var s0 := Start(who, limit, timeout);
    RunOk(s0, steps);
    FixedParameters(s0, steps);
    var s := Run(s0, steps);
    assert TaskOk(s, id, s.tasks[id]);
    var b := s.tasks[id].binding;
    BindingFields(who, true, Some(b.agentIndex), Context(b.channelId, Some(b.sessionId), Some(b.turnId)), b.requestId);
  }

  /** A fresh request expires one timeout after it was made. */
  lemma Prepares(s: Sys, agentIndex: nat, ctx: Context, freshId: string)
    requires freshId !in s.tasks && BindingFor(s.who, true, Some(agentIndex), ctx, freshId).Some?
    ensures var s' := Next(s, Prepare(true, Some(agentIndex), ctx, freshId));
      && freshId in s'.tasks && s'.registry == s.registry
      && var t := s'.tasks[freshId];
      && t.phase.Prepared? && t.channel.Open? && t.claims == [] && t.accepted == [] && t.emitted == []
      && t.expiresAt == s.now + s.timeout
      && t.binding == BindingFor(s.who, true, Some(agentIndex), ctx, freshId).value
  {
    BindingFields(s.who, true, Some(agentIndex), ctx, freshId);
  }

  /** It is registered exactly when there is room, with its binding and its expiry. */
  lemma Registers(s: Sys, id: string)
    requires Inv(s) && id in s.tasks && s.tasks[id].phase.Prepared?
    ensures var s', t := Next(s, RegisterStep(id)), s.tasks[id];
      && id in s'.tasks
      && (if |s.registry| < s.limit then
            && s'.registry == s.registry[id := Entry(t.binding, t.expiresAt)]
            && s'.tasks[id] == t.(phase := Registered)
          else s'.registry == s.registry && s'.tasks[id] == t.(phase := Refused))
  {
    assert TaskOk(s, id, s.tasks[id]);
  }

  // ------------------------------------------------------------------ Controls

  /** A registered request has been neither claimed nor decided. */
  lemma PendingIsUntouched(s: Sys, id: string)
    requires Inv(s) && id in s.registry
    ensures id in s.tasks && s.registry[id] == Entry(s.tasks[id].binding, s.tasks[id].expiresAt)
    ensures var t := s.tasks[id]; t.channel.Open? && t.claims == [] && t.accepted == [] && !t.crossed
  {
    assert TaskOk(s, id, s.tasks[id]);
  }

  lemma Resolves(s: Sys, control: Control, t: Task)
    requires var id := control.binding.requestId; id in s.registry && id in s.tasks && s.tasks[id] == t
    ensures var id, s' := control.binding.requestId, Next(s, Resolve(control));
      var (reg, result) := Claim(s.registry, control, s.now);
      && s'.registry == reg && s'.now == s.now && s'.tasks == s.tasks[id := AfterClaim(t, control, s.now, result)]
  {
  }

  /** A control with the very binding of a registered request that has not expired is taken,
      whichever way it decides: the entry is gone and the decision on its way. */
  lemma MatchingControlClaims(s: Sys, control: Control)
    requires Inv(s) && control.binding.requestId in s.registry
    requires var e := s.registry[control.binding.requestId]; s.now < e.expiresAt && e.binding == control.binding
    ensures var s', id := Next(s, Resolve(control)), control.binding.requestId;
      && id in s.tasks && s'.now == s.now
      && s'.registry == s.registry - {id}
      && s'.tasks == s.tasks[id := s.tasks[id].(claims := [Claim'(control, s.now)], sending := Some(control.decision))]
  {
    PendingIsUntouched(s, control.binding.requestId);
    var t := s.tasks[control.binding.requestId];
    assert t.claims + [Claim'(control, s.now)] == [Claim'(control, s.now)];
    Resolves(s, control, t);
  }

  /** A control for a request that has expired closes it undecided. */
  lemma ExpiredControlCloses(s: Sys, control: Control)
    requires Inv(s) && control.binding.requestId in s.registry
    requires s.now >= s.registry[control.binding.requestId].expiresAt
    ensures var s', id := Next(s, Resolve(control)), control.binding.requestId;
      && id in s.tasks && s'.now == s.now
      && s'.registry == s.registry - {id}
      && s'.tasks == s.tasks[id := s.tasks[id].(channel := Closed)]
  {
    PendingIsUntouched(s, control.binding.requestId);
    Resolves(s, control, s.tasks[control.binding.requestId]);
  }

  /** A control for a request that is not registered changes nothing. */
  lemma UnknownControlIgnored(s: Sys, control: Control)
    requires control.binding.requestId !in s.registry
    ensures Next(s, Resolve(control)) == s
  {
    var id := control.binding.requestId;
    if id in s.tasks {
      assert s.tasks[id := s.tasks[id]] == s.tasks;
    }
  }

  // -------------------------------------------------------------------- Waiting

  function OutcomeOf(decision: Verdict): Outcome {
    if decision.Approve? then Approved else Denied
  }

  /** What a step of the request itself makes of it. */
  lemma Advances(s: Sys, step: Step, t: Task)
    requires OwnStep(step) && step.id in s.tasks && s.tasks[step.id] == t
    ensures var s' := Next(s, step);
      && step.id in s'.tasks && s'.tasks[step.id] == AdvanceTask(s, t, step)
      && s'.registry == AdvanceRegistry(s, t, step) && s'.now == s.now
  {
  }

  /** A decision on its way to a request that still listens is accepted and settles it. */
  lemma Delivers(s: Sys, id: string, decision: Verdict)
    requires id in s.tasks && s.tasks[id].sending == Some(decision)
    requires s.tasks[id].phase.Registered? || s.tasks[id].phase.Waiting?
    ensures var s', t := Next(Next(Next(s, Send(id)), StartWaiting(id)), Poll(id)), s.tasks[id];
      && id in s'.tasks
      && s'.tasks[id] == t.(phase := Deciding(OutcomeOf(decision)), channel := Sent(decision), sending := None,
                            accepted := t.accepted + [decision], deliveredAt := Some(s.now))
  {
    var t := s.tasks[id];
    Advances(s, Send(id), t);
    var s1 := Next(s, Send(id));
    var t1 := t.(sending := None, channel := Sent(decision), accepted := t.accepted + [decision],
                 deliveredAt := Some(s.now));
    Advances(s1, StartWaiting(id), t1);
    var s2 := Next(s1, StartWaiting(id));
    Advances(s2, Poll(id), s2.tasks[id]);
  }

  /** Taken in time, sent and polled, a decision settles the request on the outcome it names,
      whether the request was already waiting or not. */
  lemma DecisionSettles(s: Sys, control: Control)
    requires Inv(s) && control.binding.requestId in s.registry
    requires var e := s.registry[control.binding.requestId]; s.now < e.expiresAt && e.binding == control.binding
    requires var phase := s.tasks[control.binding.requestId].phase; phase.Registered? || phase.Waiting?
    ensures var id := control.binding.requestId;
      var s' := Next(Next(Next(Next(s, Resolve(control)), Send(id)), StartWaiting(id)), Poll(id));
      && id in s'.tasks
      && var t := s'.tasks[id];
      && t.phase == Deciding(OutcomeOf(control.decision)) && t.accepted == [control.decision] && !t.crossed
  {
    PendingIsUntouched(s, control.binding.requestId);
    MatchingControlClaims(s, control);
    Delivers(Next(s, Resolve(control)), control.binding.requestId, control.decision);
  }

  lemma WaitBegins(s: Sys, id: string)
    requires id in s.tasks && s.tasks[id].phase.Registered?
    ensures var s' := Next(s, StartWaiting(id));
      id in s'.tasks && s'.tasks[id] == s.tasks[id].(phase := Waiting(s.now + s.timeout))
  {
    Advances(s, StartWaiting(id), s.tasks[id]);
  }

  /** A request that waits is denied when its sender was dropped, and keeps waiting on an
      empty channel before its deadline. */
  lemma WaitGoesOn(s: Sys, id: string)
    requires id in s.tasks && s.tasks[id].phase.Waiting?
    ensures var polled := Next(s, Poll(id));
      && id in polled.tasks
      && (s.tasks[id].channel.Closed? ==> polled.tasks[id] == s.tasks[id].(phase := Deciding(Denied)))
      && (s.tasks[id].channel.Open? && s.now < s.tasks[id].phase.deadline ==> polled.tasks[id] == s.tasks[id])
  {
    Advances(s, Poll(id), s.tasks[id]);
  }

  /** From the deadline on, an empty channel makes it time out. */
  lemma WaitLapses(s: Sys, id: string)
    requires id in s.tasks && s.tasks[id].phase.Waiting?
    requires s.tasks[id].channel.Open? && s.now >= s.tasks[id].phase.deadline
    ensures var s' := Next(Next(s, Poll(id)), Close(id));
      id in s'.tasks && s'.tasks[id] == s.tasks[id].(phase := Deciding(TimedOut))
  {
    var t := s.tasks[id];
    Advances(s, Poll(id), t);
    Advances(Next(s, Poll(id)), Close(id), t.(phase := Lapsed));
  }

  // -------------------------------------------------------------------- Endings

  /** A settled request is reported once more, with its outcome, and its entry is gone. */
  lemma FinishReports(s: Sys, id: string)
    requires id in s.tasks && s.tasks[id].phase.Deciding?
    ensures var s', t := Next(Next(Next(s, FinishRemove(id)), FinishEmit(id)), FinishDrop(id)), s.tasks[id];
      && id in s'.tasks && id !in s'.registry
      && s'.tasks[id] == t.(phase := Done(t.phase.outcome), emitted := t.emitted + [Reported(t.phase.outcome)])
  {
    var t := s.tasks[id];
    var o := t.phase.outcome;
    Advances(s, FinishRemove(id), t);
    var s1 := Next(s, FinishRemove(id));
    Advances(s1, FinishEmit(id), t.(phase := Finishing(o)));
    var s2 := Next(s1, FinishEmit(id));
    Advances(s2, FinishDrop(id), t.(phase := Finished(o), emitted := t.emitted + [Reported(o)]));
  }

  /** A request dropped while it waits is reported once more, as cancelled, and its entry is gone. */
  lemma DropReports(s: Sys, id: string)
    requires id in s.tasks && s.tasks[id].phase.Waiting?
    ensures var s', t := Next(Next(Next(s, Abort(id)), DropRemove(id)), DropEmit(id)), s.tasks[id];
      && id in s'.tasks && id !in s'.registry
      && s'.tasks[id] == t.(phase := Cancelled, emitted := t.emitted + [ReportedCancelled])
  {
    var t := s.tasks[id];
    Advances(s, Abort(id), t);
    var s1 := Next(s, Abort(id));
    Advances(s1, DropRemove(id), t.(phase := Dropping));
    var s2 := Next(s1, DropRemove(id));
    Advances(s2, DropEmit(id), t.(phase := DroppedUnreported));
  }
}
