/** The permission handler of the client on top of the broker. */
module PermissionFlow {
  import opened Json
  import opened Options
  import opened AcpMessages
  import AcpProtocol
  import AcpSessionSafety
  import PermissionBroker

  function AsDecision(outcome: PermissionBroker.Outcome): AcpProtocol.Decision {
    AcpProtocol.Decided(match outcome
                        case Approved => AcpProtocol.Approved
                        case Denied => AcpProtocol.Denied
                        case TimedOut => AcpProtocol.TimedOut)
  }

  /** In every reachable state of the broker: when its settled outcome is the decision on
      a permission request, an option that the agent offers only as `allow_once` is
      selected only after an Approve was accepted, from a control with this request's
      exact binding and before it expired. */
  lemma AllowNeedsOwnerApproval(who: PermissionBroker.Identity, limit: nat, timeout: nat,
                                steps: seq<PermissionBroker.Step>, id: string,
                                c: AcpProtocol.Client, line: Json, write: AcpProtocol.WriteResult)
    requires var s := PermissionBroker.Run(PermissionBroker.Start(who, limit, timeout), steps);
      id in s.tasks && PermissionBroker.Settled(s.tasks[id].phase).Some?
    requires View(line).verb.RequestPermission? && View(line).verb.options.Some?
    ensures
      var t := PermissionBroker.Run(PermissionBroker.Start(who, limit, timeout), steps).tasks[id];
      var decision := AsDecision(PermissionBroker.Settled(t.phase).value);
      var options := View(line).verb.options.value;
      var written := AcpProtocol.Dispatch(c, View(line), decision, write).0.written;
      written != c.written && written[|c.written|].selected.Some? &&
      (forall i :: 0 <= i < |options| && options[i].optionId == written[|c.written|].selected ==>
                     options[i].kind == AllowOnce) ==>
        && |t.claims| == 1
        && t.claims[0].control == PermissionBroker.Control(t.binding, PermissionBroker.Approve)
        && t.claims[0].at < t.expiresAt
        && t.accepted == [PermissionBroker.Approve]
  {
    var s := PermissionBroker.Run(PermissionBroker.Start(who, limit, timeout), steps);
    PermissionBroker.OneShot(who, limit, timeout, steps, id);
    AcpSessionSafety.AllowNeedsApproval(c, View(line),
                                        AsDecision(PermissionBroker.Settled(s.tasks[id].phase).value), write);
  }
}
