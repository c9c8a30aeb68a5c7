/** The members of an incoming JSON-RPC message that the client looks at. */
module AcpMessages {
  import opened Json
  import opened Options

  datatype Message = Message(
    id: Option<Json>,
    verb: Verb,
    error: Option<Json>,
    result: Json,
    outcome: Outcome)

  /** The `method` member and what the handler of that method reads. */
  datatype Verb =
    | NoMethod
    | NotAString
    | SessionUpdate(update: Update)
    | GooseUpdate
    | RequestPermission(options: Option<seq<PermissionOption>>)
    | UnknownMethod(name: string)

  /** `RunId` is a `session_info_update` that sets or clears the goose run id. */
  datatype Update = ToolCall | RunId(run: Option<string>) | OtherUpdate

  datatype OptionKind = AllowOnce | RejectOnce | OtherKind
  datatype PermissionOption = PermissionOption(kind: OptionKind, optionId: Option<string>)

  /** `result.outcome` of a response to `_session/steering`. */
  datatype Outcome = Injected | StartedNewTurn | Unrecognised(reported: Option<Json>)

  function ViewOutcome(outcome: Option<Json>): Outcome {
    if outcome == Some(Str("injected")) then Injected
    else if outcome == Some(Str("startedNewTurn")) then StartedNewTurn
    else Unrecognised(outcome)
  }

  function ViewOption(option: Json): PermissionOption {
    var kind := GetStr(option, "kind");
    PermissionOption(
      if kind == Some("allow_once") then AllowOnce
      else if kind == Some("reject_once") then RejectOnce
      else OtherKind,
      GetStr(option, "optionId"))
  }

  function ViewOptions(options: seq<Json>): seq<PermissionOption> {
    seq(|options|, i requires 0 <= i < |options| => ViewOption(options[i]))
  }

  function ViewUpdate(update: Json): Update {
    var kind := GetStr(update, "sessionUpdate");
    if kind == Some("tool_call") then ToolCall
    else if kind == Some("session_info_update") then
      match Get(At(At(update, "_meta"), "goose"), "activeRunId")
      case Some(Str(run)) => RunId(Some(run))
      case Some(Null) => RunId(None)
      case _ => OtherUpdate
    else OtherUpdate
  }

  function ViewVerb(msg: Json): Verb {
    match Get(msg, "method")
    case None => NoMethod
    case Some(Str(name)) =>
      var params := At(msg, "params");
      if name == "session/update" then SessionUpdate(ViewUpdate(At(params, "update")))
      else if name == "_goose/unstable/session/update" then GooseUpdate
      else if name == "session/request_permission" then
        match Get(params, "options")
        case Some(Arr(options)) => RequestPermission(Some(ViewOptions(options)))
        case _ => RequestPermission(None)
      else UnknownMethod(name)
    case Some(_) => NotAString
  }

  function View(msg: Json): Message {
    Message(Get(msg, "id"), ViewVerb(msg), Get(msg, "error"), At(msg, "result"),
            ViewOutcome(Get(At(msg, "result"), "outcome")))
  }

  /** An error code as a signed 64-bit number, with the given default. */
  function ErrorCode(error: Json, default: int): int {
    match Get(error, "code")
    case Some(Int(n)) =>
      if -0x8000_0000_0000_0000 <= n < 0x8000_0000_0000_0000 then n else default
    case _ => default
  }

  /** A line with a method, its parameters and perhaps an id. */
  function Call(id: Option<Json>, name: string, params: Json): Json {
    var fields := map["jsonrpc" := Str("2.0"), "method" := Str(name), "params" := params];
    Obj(if id.Some? then fields["id" := id.value] else fields)
  }

  lemma CallMembers(id: Option<Json>, name: string, params: Json)
    ensures var line := Call(id, name, params);
      Get(line, "id") == id && Get(line, "method") == Some(Str(name)) && At(line, "params") == params
      && Get(line, "error").None? && At(line, "result") == Null
  {
  }

  /** Updates are read by their kind; a run id is set by a string and cleared by a null. */
  lemma UpdatesAreRead(id: Option<Json>, run: string, update: Json)
    ensures View(Call(id, "session/update", Obj(map["update" := update]))).verb == SessionUpdate(ViewUpdate(update))
    ensures ViewUpdate(RunUpdate(Str(run))) == RunId(Some(run)) && ViewUpdate(RunUpdate(Null)) == RunId(None)
    ensures ViewUpdate(Obj(map["sessionUpdate" := Str("tool_call")])) == ToolCall
  {
    CallMembers(id, "session/update", Obj(map["update" := update]));
  }

  /** Calls are read by their method, and any other method is unknown. */
  lemma CallsAreRead(id: Option<Json>, name: string, params: Json)
    ensures View(Call(id, name, params)).id == id
    ensures name !in {"session/update", "_goose/unstable/session/update", "session/request_permission"} ==>
              View(Call(id, name, params)).verb == UnknownMethod(name)
    ensures name == "_goose/unstable/session/update" ==> View(Call(id, name, params)).verb == GooseUpdate
  {
    CallMembers(id, name, params);
  }

  /** What does not have the expected shape is still told apart: a method that is no string, a
      permission request without a list of options, an update of another kind. */
  lemma OddLinesAreRead(id: Option<Json>, line: map<string, Json>, params: Json, update: Json)
    ensures "method" in line && !line["method"].Str? ==> View(Obj(line)).verb == NotAString
    ensures (Get(params, "options").None? || !Get(params, "options").value.Arr?) ==>
              View(Call(id, "session/request_permission", params)).verb == RequestPermission(None)
    ensures GetStr(update, "sessionUpdate") !in {Some("tool_call"), Some("session_info_update")} ==>
              ViewUpdate(update) == OtherUpdate
    ensures ViewUpdate(Obj(map["sessionUpdate" := Str("session_info_update")])) == OtherUpdate
  {
    CallMembers(id, "session/request_permission", params);
  }

  /** The code of an error is its own when it is a 64-bit number, and the default otherwise. */
  lemma ErrorCodeIs(error: Json, default: int, n: int)
    ensures Get(error, "code") == Some(Int(n)) && -9223372036854775808 <= n <= 9223372036854775807 ==>
              ErrorCode(error, default) == n
    ensures Get(error, "code") == Some(Int(n)) && (n < -9223372036854775808 || n > 9223372036854775807) ==>
              ErrorCode(error, default) == default
    ensures (Get(error, "code").None? || !Get(error, "code").value.Int?) ==> ErrorCode(error, default) == default
  {
  }

  function RunUpdate(run: Json): Json {
    Obj(map["sessionUpdate" := Str("session_info_update"),
            "_meta" := Obj(map["goose" := Obj(map["activeRunId" := run])])])
  }

  function OptionJson(kind: string, optionId: string): Json {
    Obj(map["kind" := Str(kind), "optionId" := Str(optionId)])
  }

  /** The options of a permission request are read in order, each with its kind and id. */
  lemma OptionsAreRead(id: Option<Json>, options: seq<Json>)
    ensures var read := View(Call(id, "session/request_permission", Obj(map["options" := Arr(options)]))).verb;
      && read.RequestPermission? && read.options.Some? && |read.options.value| == |options|
      && (forall i :: 0 <= i < |options| ==> read.options.value[i] == ViewOption(options[i]))
    ensures forall o: string ::
              && ViewOption(OptionJson("allow_once", o)) == PermissionOption(AllowOnce, Some(o))
              && ViewOption(OptionJson("reject_once", o)) == PermissionOption(RejectOnce, Some(o))
              && ViewOption(OptionJson("allow_always", o)) == PermissionOption(OtherKind, Some(o))
  {
    CallMembers(id, "session/request_permission", Obj(map["options" := Arr(options)]));
  }

  /** A response is what has an id and no method; its error, result and steering outcome are
      read from their members. */
  lemma ResponsesAreRead(id: Json, result: Json, error: Json)
    ensures View(Obj(map["id" := id, "result" := result])) ==
              Message(Some(id), NoMethod, None, result, ViewOutcome(Get(result, "outcome")))
    ensures View(Obj(map["id" := id, "error" := error])) ==
              Message(Some(id), NoMethod, Some(error), Null, Unrecognised(None))
    ensures ViewOutcome(Some(Str("injected"))) == Injected && ViewOutcome(Some(Str("startedNewTurn"))) == StartedNewTurn
  {
  }
}
