/** One-shot permission decisions: the registry behind its mutex, the requests,
    and every interleaving of their steps with incoming controls. */
module PermissionBroker {
  import opened Options

  // ------------------------------------------------------------ The registry

  datatype Identity = Identity(ownerPubkey: string, agentPubkey: string, relayUrl: string, runtimeStartNonce: string)

  datatype Context = Context(channelId: Option<string>, sessionId: Option<string>, turnId: Option<string>)

  datatype Binding = Binding(
    requestId: string, ownerPubkey: string, agentPubkey: string, relayUrl: string, runtimeStartNonce: string,
    agentIndex: nat, sessionId: string, turnId: string, channelId: Option<string>)

  datatype Verdict = Approve | Deny

  /** A decoded `resolve_permission` control. */
  datatype Control = Control(binding: Binding, decision: Verdict)

  datatype Entry = Entry(binding: Binding, expiresAt: nat)

  type Registry = map<string, Entry>

  datatype ClaimResult = Claimed | NotPending | Expired | Mismatch

  predicate HexDigit(c: char) {
    '0' <= c <= '9' || 'a' <= c <= 'f' || 'A' <= c <= 'F'
  }

  predicate ValidPubkey(key: string) {
    |key| == 64 && forall i :: 0 <= i < |key| ==> HexDigit(key[i])
  }

  /** The binding of a new request, unless it has to be refused unseen. */
  function BindingFor(who: Identity, observed: bool, agentIndex: Option<nat>, ctx: Context, freshId: string)
    : Option<Binding>
  {
    if !observed || agentIndex.None? || ctx.sessionId.None? || ctx.turnId.None? then None
    else if !ValidPubkey(who.ownerPubkey) || !ValidPubkey(who.agentPubkey)
            || who.relayUrl == "" || who.runtimeStartNonce == "" then None
    else Some(Binding(freshId, who.ownerPubkey, who.agentPubkey, who.relayUrl, who.runtimeStartNonce,
                      agentIndex.value, ctx.sessionId.value, ctx.turnId.value, ctx.channelId))
  }

  /** Registration under the lock; refused when the registry is full. */
  function Register(reg: Registry, limit: nat, entry: Entry): Option<Registry> {
    if |reg| >= limit then None else Some(reg[entry.binding.requestId := entry])
  }

  /** The locked part of resolving a control. */
  function Claim(reg: Registry, control: Control, now: nat): (Registry, ClaimResult) {
    var id := control.binding.requestId;
    if id !in reg then (reg, NotPending)
    else if now >= reg[id].expiresAt then (reg - {id}, Expired)
    else if reg[id].binding != control.binding then (reg, Mismatch)
    else (reg - {id}, Claimed)
  }

  class Broker {
    const timeout: nat
    const limit: nat
    var byRequestId: Registry

    constructor (timeout: nat, limit: nat)
      ensures this.timeout == timeout && this.limit == limit && byRequestId == map[]
    {
      this.timeout, this.limit, byRequestId := timeout, limit, map[];
    }

    method TryRegister(entry: Entry) returns (ok: bool)
      modifies this
      ensures ok <==> |old(byRequestId)| < limit
      ensures byRequestId == if ok then old(byRequestId)[entry.binding.requestId := entry] else old(byRequestId)
      ensures Register(old(byRequestId), limit, entry) == if ok then Some(byRequestId) else None
      ensures |old(byRequestId)| <= limit ==> |byRequestId| <= limit
    {
      if |byRequestId| >= limit {
        return false;
      }
      SizeAfterInsert(byRequestId, entry.binding.requestId, entry);
      byRequestId := byRequestId[entry.binding.requestId := entry];
      ok := true;
    }

    method ResolveControl(control: Control, now: nat) returns (result: ClaimResult)
      modifies this
      ensures (byRequestId, result) == Claim(old(byRequestId), control, now)
      ensures var id := control.binding.requestId;
        && (result.NotPending? <==> id !in old(byRequestId))
        && (result.Expired? <==> id in old(byRequestId) && now >= old(byRequestId)[id].expiresAt)
        && (result.Claimed? <==>
              && id in old(byRequestId) && now < old(byRequestId)[id].expiresAt
              && old(byRequestId)[id].binding == control.binding)
        && byRequestId == (if result.Claimed? || result.Expired? then old(byRequestId) - {id} else old(byRequestId))
    {
      var id := control.binding.requestId;
      if id !in byRequestId {
        return NotPending;
      }
      if now >= byRequestId[id].expiresAt {
        byRequestId := byRequestId - {id};
        return Expired;
      }
      if byRequestId[id].binding != control.binding {
        return Mismatch;
      }
      byRequestId := byRequestId - {id};
      result := Claimed;
    }

    method Remove(id: string)
      modifies this
      ensures byRequestId == old(byRequestId) - {id}
    {
      byRequestId := byRequestId - {id};
    }
  }

  /** Removes its request and reports once, however the request ends. */
  class PendingRequestGuard {
    const broker: Broker
    const requestId: string
    var finished: bool
    var emitted: seq<Status>

    constructor (broker: Broker, requestId: string)
      ensures this.broker == broker && this.requestId == requestId && !finished && emitted == []
    {
      this.broker, this.requestId, finished, emitted := broker, requestId, false, [];
    }

    method Drop()
      modifies this, broker
      ensures broker.byRequestId == old(broker.byRequestId) - {requestId}
      ensures finished == old(finished)
      ensures emitted == if finished then old(emitted) else old(emitted) + [ReportedCancelled]
    {
      broker.Remove(requestId);
      if !finished {
        emitted := emitted + [ReportedCancelled];
      }
    }

    /** Finishing consumes the guard, so its drop follows at once. */
    method Finish(outcome: Outcome)
      requires !finished
      modifies this, broker
      ensures broker.byRequestId == old(broker.byRequestId) - {requestId}
      ensures finished && emitted == old(emitted) + [Reported(outcome)]
    {
      broker.Remove(requestId);
      emitted := emitted + [Reported(outcome)];
      finished := true;
      Drop();
    }
  }

  lemma SizeAfterInsert(reg: Registry, id: string, entry: Entry)
    ensures |reg[id := entry]| <= |reg| + 1
  {
    assert reg[id := entry].Keys == reg.Keys + {id};
  }

  lemma SizeAfterRemove(reg: Registry, id: string)
    ensures |reg - {id}| <= |reg|
  {
    var rest := reg - {id};
    if id in reg {
      assert reg.Keys == rest.Keys + {id};
    } else {
      assert rest == reg;
    }
  }

  // ---------------------------------------------------- Interleaved requests

  datatype Outcome = Approved | Denied | TimedOut

  datatype Status = Reported(outcome: Outcome) | ReportedCancelled

  /** The one-shot channel: `Closed` once the sender is dropped without a decision. */
  datatype Channel = Open | Sent(decision: Verdict) | Closed

  /** Where a request stands. The receiver lives until `Deciding` or `Dropping`; in `Lapsed`
      the wait has found the channel empty and the time up, but not yet dropped it. */
  datatype Phase =
    | Prepared
    | Refused
    | Registered
    | Waiting(deadline: nat)
    | Lapsed
    | Deciding(outcome: Outcome)
    | Finishing(outcome: Outcome)
    | Finished(outcome: Outcome)
    | Done(outcome: Outcome)
    | Dropping
    | DroppedUnreported
    | Cancelled

  datatype Claim' = Claim'(control: Control, at: nat)

  /** A request with its history: the claims made on it under the lock, the decision on
      its way to the channel, decisions accepted by the channel, when the channel took
      one and whether that was in `Lapsed`, and reports emitted. */
  datatype Task = Task(binding: Binding, expiresAt: nat, phase: Phase, channel: Channel,
                       claims: seq<Claim'>, sending: Option<Verdict>, accepted: seq<Verdict>,
                       deliveredAt: Option<nat>, crossed: bool, emitted: seq<Status>)

  datatype Sys = Sys(who: Identity, limit: nat, timeout: nat, now: nat, registry: Registry, tasks: map<string, Task>)

  datatype Step =
    | Tick(elapsed: nat)
    | Prepare(observed: bool, agentIndex: Option<nat>, ctx: Context, freshId: string)
    | RegisterStep(id: string)
    | StartWaiting(id: string)
    | Resolve(control: Control)
    | Send(id: string)
    | Poll(id: string)
    | Close(id: string)
    | FinishRemove(id: string)
    | FinishEmit(id: string)
    | FinishDrop(id: string)
    | Abort(id: string)
    | DropRemove(id: string)
    | DropEmit(id: string)

  predicate Listening(phase: Phase) {
    phase.Registered? || phase.Waiting? || phase.Lapsed?
  }

  /** Where polling the awaited `timeout(decision_rx)` leads. */
  function Polled(t: Task, now: nat): Phase {
    if !t.phase.Waiting? then t.phase
    else match t.channel
      case Sent(Approve) => Deciding(Approved)
      case Sent(Deny) => Deciding(Denied)
      case Closed => Deciding(Denied)
      case Open => if now >= t.phase.deadline then Lapsed else t.phase
  }

  function Put(s: Sys, id: string, t: Task): Sys {
    s.(tasks := s.tasks[id := t])
  }

  /** One atomic step of some request; a step that is not enabled changes nothing. */
  function Next(s: Sys, step: Step): Sys {
    match step
    case Tick(elapsed) => s.(now := s.now + elapsed)
    case Prepare(observed, agentIndex, ctx, freshId) =>
      PrepareStep(s, BindingFor(s.who, observed, agentIndex, ctx, freshId))
    case Resolve(control) => ResolveStep(s, control)
    case _ =>
      if step.id !in s.tasks then s
      else
        var t := s.tasks[step.id];
        Put(s, step.id, AdvanceTask(s, t, step)).(registry := AdvanceRegistry(s, t, step))
  }

  function FreshTask(binding: Binding, expiresAt: nat): Task {
    Task(binding, expiresAt, Prepared, Open, [], None, [], None, false, [])
  }

  /** A new request with a fresh id; its expiry is fixed before it is registered. */
  function PrepareStep(s: Sys, binding: Option<Binding>): Sys {
    if binding.None? || binding.value.requestId in s.tasks then s
    else Put(s, binding.value.requestId, FreshTask(binding.value, s.now + s.timeout))
  }

  /** The request after the locked part of a control; an expired entry drops its sender. */
  function AfterClaim(t: Task, control: Control, now: nat, result: ClaimResult): Task {
    match result
    case Claimed => t.(claims := t.claims + [Claim'(control, now)], sending := Some(control.decision))
    case Expired => t.(channel := Closed)
    case NotPending => t
    case Mismatch => t
  }

  function ResolveStep(s: Sys, control: Control): Sys {
    var (reg, result) := Claim(s.registry, control, s.now);
    var id := control.binding.requestId;
    if id !in s.tasks then s
    else Put(s, id, AfterClaim(s.tasks[id], control, s.now, result)).(registry := reg)
  }

  predicate OwnStep(step: Step) {
    !step.Tick? && !step.Prepare? && !step.Resolve?
  }

  /** Steps of the request itself, and of the resolver that claimed it. */
  function AdvanceTask(s: Sys, t: Task, step: Step): Task
    requires OwnStep(step)
  {
    match step
    case RegisterStep(_) =>
      if !t.phase.Prepared? then t
      else if Register(s.registry, s.limit, Entry(t.binding, t.expiresAt)).None? then t.(phase := Refused)
      else t.(phase := Registered)
    case StartWaiting(_) => if t.phase.Registered? then t.(phase := Waiting(s.now + s.timeout)) else t
    case Send(_) =>
      if t.sending.None? then t
      else if Listening(t.phase) then
        t.(sending := None, channel := Sent(t.sending.value), accepted := t.accepted + [t.sending.value],
           deliveredAt := Some(s.now), crossed := t.crossed || t.phase.Lapsed?)
      else t.(sending := None)
    case Poll(_) => t.(phase := Polled(t, s.now))
    case Close(_) => if t.phase.Lapsed? then t.(phase := Deciding(TimedOut)) else t
    case FinishRemove(_) => if t.phase.Deciding? then t.(phase := Finishing(t.phase.outcome)) else t
    case FinishEmit(_) =>
      if t.phase.Finishing?
      then t.(phase := Finished(t.phase.outcome), emitted := t.emitted + [Reported(t.phase.outcome)]) else t
    case FinishDrop(_) => if t.phase.Finished? then t.(phase := Done(t.phase.outcome)) else t
    case Abort(_) => if t.phase.Waiting? then t.(phase := Dropping) else t
    case DropRemove(_) => if t.phase.Dropping? then t.(phase := DroppedUnreported) else t
    case DropEmit(_) =>
      if t.phase.DroppedUnreported? then t.(phase := Cancelled, emitted := t.emitted + [ReportedCancelled]) else t
  }

  function AdvanceRegistry(s: Sys, t: Task, step: Step): Registry
    requires OwnStep(step)
  {
    match step
    case RegisterStep(_) =>
      (match Register(s.registry, s.limit, Entry(t.binding, t.expiresAt))
       case Some(reg) => if t.phase.Prepared? then reg else s.registry
       case None => s.registry)
    case FinishRemove(id) => if t.phase.Deciding? then s.registry - {id} else s.registry
    case FinishDrop(id) => if t.phase.Finished? then s.registry - {id} else s.registry
    case DropRemove(id) => if t.phase.Dropping? then s.registry - {id} else s.registry
    case _ => s.registry
  }

  function Run(s: Sys, steps: seq<Step>): Sys
    decreases |steps|
  {
    if steps == [] then s else Run(Next(s, steps[0]), steps[1..])
  }

  function Start(who: Identity, limit: nat, timeout: nat): Sys {
    Sys(who, limit, timeout, 0, map[], map[])
  }

  // ---------------------------------------------------------------- Invariant

  predicate MayBePending(phase: Phase) {
    phase.Registered? || phase.Waiting? || phase.Lapsed? || phase.Deciding? || phase.Dropping?
  }

  /** The outcome a request has settled on. */
  function Settled(phase: Phase): Option<Outcome> {
    if phase.Deciding? || phase.Finishing? || phase.Finished? || phase.Done? then Some(phase.outcome) else None
  }

  /** The reports that a request in this phase has made. */
  function Reports(phase: Phase): seq<Status> {
    match phase
    case Finished(o) => [Reported(o)]
    case Done(o) => [Reported(o)]
    case Cancelled => [ReportedCancelled]
    case _ => []
  }

  ghost predicate ClaimsOk(t: Task) {
    && |t.claims| <= 1
    && (t.claims != [] ==> t.claims[0].control.binding == t.binding && t.claims[0].at < t.expiresAt)
    && (t.sending.Some? ==> t.claims != [] && t.sending == Some(t.claims[0].control.decision) && t.accepted == [])
    && (t.channel.Sent? <==> t.accepted != [])
    && (t.accepted != [] ==>
          && t.claims != []
          && t.accepted == [t.claims[0].control.decision]
          && t.channel == Sent(t.claims[0].control.decision))
    && (t.channel.Closed? ==> t.claims == [])
    && (t.deliveredAt.Some? <==> t.accepted != [])
  }

  /** The wait has ended, or is about to end, without a decision. */
  predicate TimesOut(phase: Phase) {
    phase.Lapsed? || Settled(phase) == Some(TimedOut)
  }

  ghost predicate OutcomeOk(t: Task, now: nat) {
    && (Settled(t.phase) == Some(Approved) ==> t.accepted == [Approve])
    && (Settled(t.phase) == Some(Denied) ==> t.accepted == [Deny] || t.channel.Closed?)
    && (TimesOut(t.phase) ==> t.expiresAt <= now && (t.accepted != [] ==> t.crossed))
    && (t.phase.Waiting? ==> t.expiresAt <= t.phase.deadline)
    && (t.crossed ==>
          TimesOut(t.phase) && t.accepted != [] && t.deliveredAt.Some? && t.expiresAt <= t.deliveredAt.value)
  }

  /** The binding is the one a request from this runtime would be given. */
  ghost predicate Genuine(who: Identity, b: Binding) {
    BindingFor(who, true, Some(b.agentIndex),
               Context(b.channelId, Some(b.sessionId), Some(b.turnId)), b.requestId) == Some(b)
  }

  /** How a registered entry and its request fit together. */
  ghost predicate EntryOk(reg: Registry, id: string, t: Task) {
    && (id in reg ==>
          && reg[id] == Entry(t.binding, t.expiresAt)
          && MayBePending(t.phase) && t.claims == [] && t.channel.Open?)
    && (t.phase.Prepared? || t.phase.Refused? ==> t.claims == [] && t.channel.Open?)
  }

  ghost predicate TaskOk(s: Sys, id: string, t: Task) {
    && t.binding.requestId == id
    && Genuine(s.who, t.binding)
    && EntryOk(s.registry, id, t)
    && t.expiresAt <= s.now + s.timeout
    && ClaimsOk(t)
    && OutcomeOk(t, s.now)
    && t.emitted == Reports(t.phase)
  }

  ghost predicate Inv(s: Sys) {
    && |s.registry| <= s.limit
    && s.registry.Keys <= s.tasks.Keys
    && forall id :: id in s.tasks ==> TaskOk(s, id, s.tasks[id])
  }

  lemma AdvanceClaims(s: Sys, t: Task, step: Step)
    requires OwnStep(step) && ClaimsOk(t)
    ensures ClaimsOk(AdvanceTask(s, t, step))
  {
  }

  lemma AdvanceOutcome(s: Sys, t: Task, step: Step)
    requires OwnStep(step) && ClaimsOk(t) && OutcomeOk(t, s.now) && t.expiresAt <= s.now + s.timeout
    ensures OutcomeOk(AdvanceTask(s, t, step), s.now)
  {
    if step.Send? {
      SendOutcome(s, t, step);
    } else if step.Poll? {
      PollOutcome(s, t, step);
    } else if !step.Close? && !step.StartWaiting? {
      MovesOn(s, t, step);
      SameOutcome(t, AdvanceTask(s, t, step), s.now);
    }
  }

  /** Registering, finishing, aborting and dropping decide nothing. */
  lemma MovesOn(s: Sys, t: Task, step: Step)
    requires OwnStep(step) && !step.Send? && !step.Poll? && !step.Close? && !step.StartWaiting?
    ensures var t' := AdvanceTask(s, t, step);
      && Settled(t'.phase) == Settled(t.phase) && t'.phase.Lapsed? == t.phase.Lapsed?
      && (t'.phase.Waiting? ==> t'.phase == t.phase)
      && t'.expiresAt == t.expiresAt && t'.channel == t.channel && t'.accepted == t.accepted
      && t'.crossed == t.crossed && t'.deliveredAt == t.deliveredAt
  {
  }

  /** A step that only moves on within the same outcome. */
  lemma SameOutcome(t: Task, t': Task, now: nat)
    requires OutcomeOk(t, now) && Settled(t'.phase) == Settled(t.phase) && t'.phase.Lapsed? == t.phase.Lapsed?
    requires t'.phase.Waiting? ==> t'.phase == t.phase
    requires t'.expiresAt == t.expiresAt && t'.channel == t.channel && t'.accepted == t.accepted
    requires t'.crossed == t.crossed && t'.deliveredAt == t.deliveredAt
    ensures OutcomeOk(t', now)
  {
  }

  lemma SendOutcome(s: Sys, t: Task, step: Step)
    requires step.Send? && ClaimsOk(t) && OutcomeOk(t, s.now)
    ensures OutcomeOk(AdvanceTask(s, t, step), s.now)
  {
    if t.sending.Some? && Listening(t.phase) {
      assert t.accepted == [] && !t.crossed;
    }
  }

  lemma PollOutcome(s: Sys, t: Task, step: Step)
    requires step.Poll? && ClaimsOk(t) && OutcomeOk(t, s.now)
    ensures OutcomeOk(AdvanceTask(s, t, step), s.now)
  {
    if t.phase.Waiting? {
      assert !t.crossed;
      match t.channel
      case Sent(_) =>
      case Closed =>
      case Open =>
    }
  }

  lemma AdvanceReports(s: Sys, t: Task, step: Step)
    requires OwnStep(step) && t.emitted == Reports(t.phase)
    ensures var t' := AdvanceTask(s, t, step);
      && t'.emitted == Reports(t'.phase)
      && t'.binding == t.binding && t'.expiresAt == t.expiresAt
  {
  }

  /** The registry changed at `id` at most. */
  ghost predicate OnlyMoved(reg: Registry, reg': Registry, id: string) {
    && reg'.Keys <= reg.Keys + {id}
    && (forall k :: k in reg' && k != id ==> k in reg && reg'[k] == reg[k])
  }

  lemma AdvanceMoves(s: Sys, t: Task, step: Step)
    requires OwnStep(step) && t.binding.requestId == step.id && |s.registry| <= s.limit
    ensures var reg := AdvanceRegistry(s, t, step); |reg| <= s.limit && OnlyMoved(s.registry, reg, step.id)
  {
    SizeAfterRemove(s.registry, step.id);
    SizeAfterInsert(s.registry, step.id, Entry(t.binding, t.expiresAt));
    var reg := AdvanceRegistry(s, t, step);
    assert reg == s.registry || reg == s.registry - {step.id}
        || (|s.registry| < s.limit && reg == s.registry[step.id := Entry(t.binding, t.expiresAt)]);
  }

  lemma AdvanceEntry(s: Sys, t: Task, step: Step)
    requires OwnStep(step) && t.binding.requestId == step.id
    requires EntryOk(s.registry, step.id, t) && ClaimsOk(t)
    ensures EntryOk(AdvanceRegistry(s, t, step), step.id, AdvanceTask(s, t, step))
  {
    match step
    case RegisterStep(_) =>
    case StartWaiting(_) =>
    case Send(_) =>
    case Poll(_) =>
    case Close(_) =>
    case FinishRemove(_) =>
    case FinishEmit(_) =>
    case FinishDrop(_) =>
    case Abort(_) =>
    case DropRemove(_) =>
    case DropEmit(_) =>
  }

  lemma AdvanceOk(s: Sys, step: Step)
    requires Inv(s) && OwnStep(step) && step.id in s.tasks
    ensures Inv(Next(s, step))
  {
    var t := s.tasks[step.id];
    assert TaskOk(s, step.id, t);
    AdvanceClaims(s, t, step);
    AdvanceOutcome(s, t, step);
    AdvanceReports(s, t, step);
    AdvanceMoves(s, t, step);
    AdvanceEntry(s, t, step);
    OthersKeep(s, step.id, AdvanceTask(s, t, step), AdvanceRegistry(s, t, step));
  }

  /** Replacing one request, and its entry, leaves the others as they were. */
  lemma OthersKeep(s: Sys, id: string, t: Task, reg: Registry)
    requires Inv(s)
    requires TaskOk(s.(registry := reg), id, t)
    requires |reg| <= s.limit && reg.Keys <= s.tasks.Keys + {id}
    requires forall k :: k in reg && k != id ==> k in s.registry && reg[k] == s.registry[k]
    ensures Inv(Put(s, id, t).(registry := reg))
  {
    var s' := Put(s, id, t).(registry := reg);
    forall k | k in s'.tasks ensures TaskOk(s', k, s'.tasks[k]) {
      if k != id {
        assert TaskOk(s, k, s.tasks[k]);
      }
    }
  }

  lemma AfterClaimOk(s: Sys, id: string, t: Task, control: Control)
    requires TaskOk(s, id, t) && id == control.binding.requestId
    ensures var (reg, result) := Claim(s.registry, control, s.now);
      TaskOk(s.(registry := reg), id, AfterClaim(t, control, s.now, result))
  {
  }

  lemma ClaimShrinks(reg: Registry, control: Control, now: nat)
    ensures var reg' := Claim(reg, control, now).0;
      && |reg'| <= |reg|
      && reg'.Keys <= reg.Keys
      && (forall k :: k in reg' ==> k in reg && reg'[k] == reg[k])
  {
    SizeAfterRemove(reg, control.binding.requestId);
  }

  lemma ResolveOk(s: Sys, control: Control)
    requires Inv(s)
    ensures Inv(ResolveStep(s, control))
  {
    var id := control.binding.requestId;
    if id in s.tasks {
      var (reg, result) := Claim(s.registry, control, s.now);
      ClaimShrinks(s.registry, control, s.now);
      assert TaskOk(s, id, s.tasks[id]);
      AfterClaimOk(s, id, s.tasks[id], control);
      OthersKeep(s, id, AfterClaim(s.tasks[id], control, s.now, result), reg);
    }
  }

  lemma FreshIsGenuine(who: Identity, observed: bool, agentIndex: Option<nat>, ctx: Context, freshId: string)
    ensures var b := BindingFor(who, observed, agentIndex, ctx, freshId);
      b.Some? ==> b.value.requestId == freshId && Genuine(who, b.value)
  {
  }

  lemma FreshTaskOk(s: Sys, binding: Binding)
    requires Genuine(s.who, binding) && binding.requestId !in s.registry
    ensures TaskOk(s, binding.requestId, FreshTask(binding, s.now + s.timeout))
  {
  }

  lemma PrepareOk(s: Sys, binding: Option<Binding>)
    requires Inv(s) && (binding.Some? ==> Genuine(s.who, binding.value))
    ensures Inv(PrepareStep(s, binding))
  {
    if binding.Some? && binding.value.requestId !in s.tasks {
      var s' := PrepareStep(s, binding);
      FreshTaskOk(s', binding.value);
      forall k | k in s'.tasks ensures TaskOk(s', k, s'.tasks[k]) {
        assert k in s.tasks ==> TaskOk(s, k, s.tasks[k]);
      }
    }
  }

  lemma TickOk(s: Sys, elapsed: nat)
    requires Inv(s)
    ensures Inv(s.(now := s.now + elapsed))
  {
    var s' := s.(now := s.now + elapsed);
    forall k | k in s'.tasks ensures TaskOk(s', k, s'.tasks[k]) {
      assert TaskOk(s, k, s.tasks[k]);
    }
  }

  lemma NextOk(s: Sys, step: Step)
    requires Inv(s)
    ensures Inv(Next(s, step))
  {
    match step
    case Tick(elapsed) => TickOk(s, elapsed);
    case Prepare(observed, agentIndex, ctx, freshId) =>
      FreshIsGenuine(s.who, observed, agentIndex, ctx, freshId);
      PrepareOk(s, BindingFor(s.who, observed, agentIndex, ctx, freshId));
    case Resolve(control) => ResolveOk(s, control);
    case _ =>
      if step.id in s.tasks {
        AdvanceOk(s, step);
      }
  }

  /** Every interleaving of steps keeps the invariant. */
  lemma {:induction false} RunOk(s: Sys, steps: seq<Step>)
    requires Inv(s)
    ensures Inv(Run(s, steps))
    decreases |steps|
  {
    if steps != [] {
      NextOk(s, steps[0]);
      RunOk(Next(s, steps[0]), steps[1..]);
    }
  }

  // ------------------------------------------------------------ What it means

  /** A request has at most one accepted decision, made by a control whose nine binding
      fields all match and before expiry; its outcome follows that decision unless it
      crossed with the end of the wait, which no decision delivered before expiry does;
      and once the request has ended it left exactly one report and no entry. */
  ghost predicate DecidedOnce(s: Sys, id: string, t: Task) {
    && |t.accepted| <= 1
    && (t.accepted != [] ==>
          && |t.claims| == 1
          && t.claims[0].control == Control(t.binding, t.accepted[0])
          && t.claims[0].at < t.expiresAt)
    && (Settled(t.phase) == Some(Approved) ==> t.accepted == [Approve])
    && (Settled(t.phase) == Some(TimedOut) ==> (t.accepted != [] <==> t.crossed))
    && (t.accepted != [] && Settled(t.phase).Some? && !t.crossed ==>
          Settled(t.phase) == Some(if t.accepted[0].Approve? then Approved else Denied))
    && (t.accepted != [] ==> t.deliveredAt.Some? && (t.deliveredAt.value < t.expiresAt ==> !t.crossed))
    && (t.phase.Done? ==> t.emitted == [Reported(t.phase.outcome)] && id !in s.registry)
    && (t.phase.Cancelled? ==> t.emitted == [ReportedCancelled] && id !in s.registry)
    && (t.phase.Refused? ==> t.emitted == [] && t.claims == [])
    && |t.emitted| <= 1
  }

  lemma TaskDecidedOnce(s: Sys, id: string, t: Task)
    requires TaskOk(s, id, t)
    ensures DecidedOnce(s, id, t)
  {
    if t.accepted != [] && Settled(t.phase).Some? && !t.crossed {
      SettledFollowsAccepted(t, s.now);
    }
  }

  /** Over every interleaving of steps from an empty broker, the registry stays within its
      limit and every request is decided at most once. */
  lemma OneShot(who: Identity, limit: nat, timeout: nat, steps: seq<Step>, id: string)
    ensures var s := Run(Start(who, limit, timeout), steps);
      |s.registry| <= limit && (id in s.tasks ==> DecidedOnce(s, id, s.tasks[id]))
  {
    var s0 := Start(who, limit, timeout);
    assert Inv(s0);
    RunOk(s0, steps);
    FixedParameters(s0, steps);
    var s := Run(s0, steps);
    if id in s.tasks {
      TaskDecidedOnce(s, id, s.tasks[id]);
    }
  }

  lemma SettledFollowsAccepted(t: Task, now: nat)
    requires ClaimsOk(t) && OutcomeOk(t, now) && Settled(t.phase).Some? && t.accepted != [] && !t.crossed
    ensures Settled(t.phase) == Some(if t.accepted[0].Approve? then Approved else Denied)
  {
    match Settled(t.phase).value
    case Approved =>
    case Denied =>
    case TimedOut =>
  }

  lemma {:induction false} FixedParameters(s: Sys, steps: seq<Step>)
    ensures Run(s, steps).limit == s.limit && Run(s, steps).who == s.who && Run(s, steps).timeout == s.timeout
    decreases |steps|
  {
    if steps != [] {
      FixedParameters(Next(s, steps[0]), steps[1..]);
    }
  }

  /** A control that differs in any binding field from an unexpired request is ignored. */
  lemma MismatchChangesNothing(s: Sys, control: Control)
    requires control.binding.requestId in s.registry
    requires s.now < s.registry[control.binding.requestId].expiresAt
    requires control.binding != s.registry[control.binding.requestId].binding
    ensures Next(s, Resolve(control)) == s
  {
    var id := control.binding.requestId;
    if id in s.tasks {
      assert s.tasks[id := s.tasks[id]] == s.tasks;
    }
  }

  /** A claimed decision that reaches the channel before the request expires is accepted
      unless the request was aborted: the wait ends no earlier than the expiry. */
  lemma TimelySendAccepted(s: Sys, id: string)
    requires Inv(s) && id in s.tasks
    requires s.tasks[id].sending.Some? && s.now < s.tasks[id].expiresAt
    requires !s.tasks[id].phase.Dropping? && !s.tasks[id].phase.DroppedUnreported? && !s.tasks[id].phase.Cancelled?
    ensures var t := Next(s, Send(id)).tasks[id];
      t.accepted == [s.tasks[id].sending.value] && !t.crossed && t.deliveredAt == Some(s.now)
  {
    var t := s.tasks[id];
    assert TaskOk(s, id, t);
    if Settled(t.phase).Some? {
      match Settled(t.phase).value
      case Approved =>
      case Denied =>
      case TimedOut =>
    }
    assert Listening(t.phase);
  }

  lemma StepGrows(s: Sys, step: Step, id: string)
    requires id in s.tasks
    ensures var s' := Next(s, step);
      && id in s'.tasks
      && s.tasks[id].accepted <= s'.tasks[id].accepted
      && s.tasks[id].emitted <= s'.tasks[id].emitted
      && s.tasks[id].claims <= s'.tasks[id].claims
  {
    if OwnStep(step) && step.id in s.tasks {
      TaskGrows(s, s.tasks[step.id], step);
    }
  }

  lemma TaskGrows(s: Sys, t: Task, step: Step)
    requires OwnStep(step)
    ensures var t' := AdvanceTask(s, t, step);
      t.accepted <= t'.accepted && t.emitted <= t'.emitted && t.claims <= t'.claims
  {
  }

  /** Decisions accepted and reports made are never taken back. */
  lemma {:induction false} HistoryOnlyGrows(s: Sys, steps: seq<Step>, id: string)
    requires id in s.tasks
    ensures id in Run(s, steps).tasks
    ensures s.tasks[id].accepted <= Run(s, steps).tasks[id].accepted
    ensures s.tasks[id].emitted <= Run(s, steps).tasks[id].emitted
    ensures s.tasks[id].claims <= Run(s, steps).tasks[id].claims
    decreases |steps|
  {
    if steps != [] {
      StepGrows(s, steps[0], id);
      HistoryOnlyGrows(Next(s, steps[0]), steps[1..], id);
    }
  }

  // ------------------------------------------- A decision that crosses the timeout

  /** An Approve claimed in time and sent between the last poll and the drop. */
  function CrossingSteps(ctx: Context, binding: Binding, timeout: nat): seq<Step> {
    var id := binding.requestId;
    [Prepare(true, Some(0), ctx, id), RegisterStep(id), StartWaiting(id), Resolve(Control(binding, Approve)),
     Tick(timeout), Poll(id), Send(id), Close(id)]
  }

  lemma RunSplits(s: Sys, steps: seq<Step>, n: nat)
    requires n < |steps|
    ensures Run(s, steps[n..]) == Run(Next(s, steps[n]), steps[n + 1..])
  {
    assert steps[n..][1..] == steps[n + 1..];
  }

  lemma CrossingStart(who: Identity, limit: nat, timeout: nat, ctx: Context, binding: Binding) returns (s: Sys)
    requires BindingFor(who, true, Some(0), ctx, binding.requestId) == Some(binding) && limit > 0 && timeout > 0
    ensures var id := binding.requestId;
      var t := FreshTask(binding, timeout);
      s == Sys(who, limit, timeout, 0, map[id := Entry(binding, timeout)],
               map[id := t.(phase := Waiting(timeout))])
    ensures var steps := CrossingSteps(ctx, binding, timeout);
      Run(Start(who, limit, timeout), steps) == Run(s, steps[3..])
  {
    var id := binding.requestId;
    var t := FreshTask(binding, timeout);
    var steps := CrossingSteps(ctx, binding, timeout);
    var s0 := Start(who, limit, timeout);
    var s1 := Next(s0, steps[0]);
    assert s1 == Sys(who, limit, timeout, 0, map[], map[id := t]);
    var s2 := Next(s1, steps[1]);
    assert s2 == Sys(who, limit, timeout, 0, map[id := Entry(binding, timeout)], map[id := t.(phase := Registered)]);
    s := Next(s2, steps[2]);
    assert steps[0..] == steps;
    RunSplits(s0, steps, 0);
    RunSplits(s1, steps, 1);
    RunSplits(s2, steps, 2);
  }

  /** The second half: claimed in time, sent after the wait found nothing. */
  lemma CrossingEnd(s: Sys, binding: Binding, end: Sys)
    requires binding.requestId in s.tasks && binding.requestId in s.registry && s.now < s.timeout
    requires s.registry[binding.requestId] == Entry(binding, s.timeout)
    requires s.tasks[binding.requestId] == FreshTask(binding, s.timeout).(phase := Waiting(s.timeout))
    requires var id := binding.requestId;
      end == Next(Next(Next(Next(s, Resolve(Control(binding, Approve))), Tick(s.timeout)), Poll(id)), Send(id))
    ensures binding.requestId in end.tasks
    ensures var t := end.tasks[binding.requestId]; t.phase.Lapsed? && t.accepted == [Approve] && t.crossed
  {
    var id := binding.requestId;
    var s4 := Next(s, Resolve(Control(binding, Approve)));
    assert s4.tasks[id].sending == Some(Approve) && s4.tasks[id].phase == Waiting(s.timeout);
    assert s4.tasks[id].channel.Open? && s4.tasks[id].accepted == [];
    var s6 := Next(Next(s4, Tick(s.timeout)), Poll(id));
    assert s6.tasks[id].phase.Lapsed? && s6.tasks[id].sending == Some(Approve) && s6.tasks[id].accepted == [];
  }

  /** On several threads the owner's decision can be accepted and the request still time
      out. */
  lemma DecisionCanCross(who: Identity, limit: nat, timeout: nat, ctx: Context, binding: Binding)
    requires BindingFor(who, true, Some(0), ctx, binding.requestId) == Some(binding) && limit > 0 && timeout > 0
    ensures var s := Run(Start(who, limit, timeout), CrossingSteps(ctx, binding, timeout));
      && binding.requestId in s.tasks
      && var t := s.tasks[binding.requestId];
         Settled(t.phase) == Some(TimedOut) && t.accepted == [Approve] && t.crossed
  {
    var steps := CrossingSteps(ctx, binding, timeout);
    var s3 := CrossingStart(who, limit, timeout, ctx, binding);
    var s7 := Next(Next(Next(Next(s3, steps[3]), steps[4]), steps[5]), steps[6]);
    CrossingEnd(s3, binding, s7);
    assert Run(s3, steps[3..]) == Next(s7, steps[7]) by {
      RunSplits(s3, steps, 3);
      RunSplits(Next(s3, steps[3]), steps, 4);
      RunSplits(Next(Next(s3, steps[3]), steps[4]), steps, 5);
      RunSplits(Next(Next(Next(s3, steps[3]), steps[4]), steps[5]), steps, 6);
      RunSplits(s7, steps, 7);
    }
  }

  /** The step sends a decision while the receiver of a lapsed wait is still there. */
  predicate SendsLate(s: Sys, step: Step, id: string) {
    step == Send(id) && id in s.tasks && s.tasks[id].phase.Lapsed? && s.tasks[id].sending.Some?
  }

  /** Some step of the run does. */
  predicate SomeSendIsLate(s: Sys, steps: seq<Step>, id: string)
    decreases |steps|
  {
    steps != [] && (SendsLate(s, steps[0], id) || SomeSendIsLate(Next(s, steps[0]), steps[1..], id))
  }

  predicate CrossedIn(s: Sys, id: string) {
    id in s.tasks && s.tasks[id].crossed
  }

  lemma StepCrosses(s: Sys, step: Step, id: string)
    ensures CrossedIn(Next(s, step), id) <==> CrossedIn(s, id) || SendsLate(s, step, id)
  {
    match step
    case Tick(_) =>
    case Prepare(_, _, _, _) =>
    case Resolve(_) =>
    case _ =>
  }

  lemma {:induction false} RunCrosses(s: Sys, steps: seq<Step>, id: string)
    ensures CrossedIn(Run(s, steps), id) <==> CrossedIn(s, id) || SomeSendIsLate(s, steps, id)
    decreases |steps|
  {
    if steps != [] {
      StepCrosses(s, steps[0], id);
      RunCrosses(Next(s, steps[0]), steps[1..], id);
    }
  }

  /** A request that timed out has an accepted decision exactly when a send got in between
      the last poll of the wait and the drop of its receiver. */
  lemma TimedOutDecidedIff(who: Identity, limit: nat, timeout: nat, steps: seq<Step>, id: string)
    requires var s := Run(Start(who, limit, timeout), steps);
      id in s.tasks && Settled(s.tasks[id].phase) == Some(TimedOut)
    ensures Run(Start(who, limit, timeout), steps).tasks[id].accepted != []
            <==> SomeSendIsLate(Start(who, limit, timeout), steps, id)
  {
    OneShot(who, limit, timeout, steps, id);
    RunCrosses(Start(who, limit, timeout), steps, id);
  }
}
