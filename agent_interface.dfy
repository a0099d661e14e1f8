/** mcp_code_indexer/agent_interface.py: the request and response records,
    their dict forms, and how `process_request` turns a request into a
    response. The components behind the handlers (indexer, search engine,
    agent manager) are one opaque function from an action and its parameters
    to the outcome of the component call. */
module AgentInterface {
  import opened Wrappers
  import opened PyValue

  datatype ActionType =
    | IndexProject | SearchCode | GetCodeContext | AnalyzeCode
    | FindSimilarCode | NaturalLanguageSearch | GetRelatedCode | GetFileOverview
  {
    function Value(): string {
      match this
      case IndexProject => "index_project"
      case SearchCode => "search_code"
      case GetCodeContext => "get_code_context"
      case AnalyzeCode => "analyze_code"
      case FindSimilarCode => "find_similar_code"
      case NaturalLanguageSearch => "natural_language_search"
      case GetRelatedCode => "get_related_code"
      case GetFileOverview => "get_file_overview"
    }
  }

  const AllActions: set<ActionType> :=
    {IndexProject, SearchCode, GetCodeContext, AnalyzeCode,
     FindSimilarCode, NaturalLanguageSearch, GetRelatedCode, GetFileOverview}

  /** `AllActions` lists every member of the enum. */
  lemma ActionsComplete(a: ActionType)
    ensures a in AllActions
  {
    match a
    case IndexProject =>
    case SearchCode =>
    case GetCodeContext =>
    case AnalyzeCode =>
    case FindSimilarCode =>
    case NaturalLanguageSearch =>
    case GetRelatedCode =>
    case GetFileOverview =>
  }

  /** `ActionType(value)`: the member whose value is `v`, else ValueError. */
  function ParseAction(v: Value): (r: Call<ActionType>)
    ensures forall a: ActionType :: v == PStr(a.Value()) ==> r == Returned(a)
    ensures r.Returned? ==> v == PStr(r.value.Value())
    ensures r.Raised? ==> r.message == Repr(v) + " is not a valid ActionType"
  {
    match v
    case PStr(s) =>
      if s == "index_project" then Returned(IndexProject)
      else if s == "search_code" then Returned(SearchCode)
      else if s == "get_code_context" then Returned(GetCodeContext)
      else if s == "analyze_code" then Returned(AnalyzeCode)
      else if s == "find_similar_code" then Returned(FindSimilarCode)
      else if s == "natural_language_search" then Returned(NaturalLanguageSearch)
      else if s == "get_related_code" then Returned(GetRelatedCode)
      else if s == "get_file_overview" then Returned(GetFileOverview)
      else Raised(Repr(v) + " is not a valid ActionType")
    case _ => Raised(Repr(v) + " is not a valid ActionType")
  }

  /** An `AgentRequest`; the dataclass checks no field types, so the fields
      other than the action hold any value (`userId` is `PNone` for None). */
  datatype AgentRequest = AgentRequest(action: ActionType, parameters: Value, requestId: Value, userId: Value)

  datatype AgentResponse = AgentResponse(requestId: Value, success: Value, data: Value, error: Value)

  /** `data[key]`. */
  function Subscript(entries: seq<(Value, Value)>, key: string): (r: Call<Value>)
    ensures r.Raised? <==> Lookup(entries, PStr(key)).None?
    ensures r.Raised? ==> r.message == KeyErrorMessage(key)
    ensures r.Returned? ==> Lookup(entries, PStr(key)) == Some(r.value)
  {
    match Lookup(entries, PStr(key))
    case Some(v) => Returned(v)
    case None => Raised(KeyErrorMessage(key))
  }

  function RequestToDict(r: AgentRequest): Value {
    PDict([(PStr("action"), PStr(r.action.Value())), (PStr("parameters"), r.parameters),
           (PStr("request_id"), r.requestId), (PStr("user_id"), r.userId)])
  }

  /** `AgentRequest.from_dict`: the fields are read in order `action`,
      `parameters`, `request_id`, `user_id`; the first three are required and
      the action must be valid, the last defaults to None. */
  function RequestFromDict(entries: seq<(Value, Value)>): (r: Call<AgentRequest>)
    ensures Lookup(entries, PStr("action")).None? ==> r == Raised(KeyErrorMessage("action"))
    ensures r.Returned? ==>
      Lookup(entries, PStr("action")) == Some(PStr(r.value.action.Value())) &&
      Lookup(entries, PStr("parameters")) == Some(r.value.parameters) &&
      Lookup(entries, PStr("request_id")) == Some(r.value.requestId) &&
      r.value.userId == Lookup(entries, PStr("user_id")).GetOr(PNone)
    ensures r.Raised? ==>
      Lookup(entries, PStr("action")).None? || ParseAction(Lookup(entries, PStr("action")).value).Raised? ||
      Lookup(entries, PStr("parameters")).None? || Lookup(entries, PStr("request_id")).None?
  {
    match Subscript(entries, "action")
    case Raised(m) => Raised(m)
    case Returned(av) =>
      match ParseAction(av)
      case Raised(m) => Raised(m)
      case Returned(action) =>
        match Subscript(entries, "parameters")
        case Raised(m) => Raised(m)
        case Returned(parameters) =>
          match Subscript(entries, "request_id")
          case Raised(m) => Raised(m)
          case Returned(requestId) =>
            Returned(AgentRequest(action, parameters, requestId, Lookup(entries, PStr("user_id")).GetOr(PNone)))
  }

  function ResponseToDict(r: AgentResponse): Value {
    PDict([(PStr("request_id"), r.requestId), (PStr("success"), r.success),
           (PStr("data"), r.data), (PStr("error"), r.error)])
  }

  /** `AgentResponse.from_dict`: `request_id`, `success` and `data` are
      required, `error` defaults to None. */
  function ResponseFromDict(entries: seq<(Value, Value)>): (r: Call<AgentResponse>)
    ensures r.Returned? <==>
      Lookup(entries, PStr("request_id")).Some? && Lookup(entries, PStr("success")).Some? && Lookup(entries, PStr("data")).Some?
    ensures r.Returned? ==>
      Lookup(entries, PStr("request_id")) == Some(r.value.requestId) &&
      Lookup(entries, PStr("success")) == Some(r.value.success) &&
      Lookup(entries, PStr("data")) == Some(r.value.data) &&
      r.value.error == Lookup(entries, PStr("error")).GetOr(PNone)
  {
    match Subscript(entries, "request_id")
    case Raised(m) => Raised(m)
    case Returned(requestId) =>
      match Subscript(entries, "success")
      case Raised(m) => Raised(m)
      case Returned(success) =>
        match Subscript(entries, "data")
        case Raised(m) => Raised(m)
        case Returned(data) => Returned(AgentResponse(requestId, success, data, Lookup(entries, PStr("error")).GetOr(PNone)))
  }

  /** `from_dict(to_dict(r)) == r`, and `to_dict` stores the action's string value. */
  lemma RequestRoundTrip(r: AgentRequest)
    ensures RequestToDict(r).PDict? && RequestFromDict(RequestToDict(r).entries) == Returned(r)
    ensures Lookup(RequestToDict(r).entries, PStr("action")) == Some(PStr(r.action.Value()))
  {
    var e := RequestToDict(r).entries;
    LookupFirst(e, 0, PStr("action"));
    LookupFirst(e, 1, PStr("parameters"));
    LookupFirst(e, 2, PStr("request_id"));
    LookupFirst(e, 3, PStr("user_id"));
    assert ParseAction(PStr(r.action.Value())) == Returned(r.action);
    assert Subscript(e, "action") == Returned(PStr(r.action.Value()));
    assert Subscript(e, "parameters") == Returned(r.parameters);
    assert Subscript(e, "request_id") == Returned(r.requestId);
  }

  lemma ResponseRoundTrip(r: AgentResponse)
    ensures ResponseToDict(r).PDict? && ResponseFromDict(ResponseToDict(r).entries) == Returned(r)
  {
    var e := ResponseToDict(r).entries;
    LookupFirst(e, 0, PStr("request_id"));
    LookupFirst(e, 1, PStr("success"));
    LookupFirst(e, 2, PStr("data"));
    LookupFirst(e, 3, PStr("error"));
  }

  /** Missing optional keys read as None. */
  lemma MissingOptionalIsNone(entries: seq<(Value, Value)>)
    ensures RequestFromDict(entries).Returned? && Lookup(entries, PStr("user_id")).None? ==>
              RequestFromDict(entries).value.userId == PNone
    ensures ResponseFromDict(entries).Returned? && Lookup(entries, PStr("error")).None? ==>
              ResponseFromDict(entries).value.error == PNone
  {
  }

  /** The parameters each handler requires, in the order it checks them. */
  function RequiredParameters(a: ActionType): seq<string> {
    match a
    case IndexProject => ["project_path"]
    case SearchCode => ["query"]
    case GetCodeContext => ["file_path", "line_number"]
    case AnalyzeCode => ["file_path"]
    case FindSimilarCode => ["code"]
    case NaturalLanguageSearch => ["query"]
    case GetRelatedCode => ["code_chunk"]
    case GetFileOverview => ["file_path"]
  }

  /** `not parameters.get(name)`. */
  predicate MissingParameter(entries: seq<(Value, Value)>, name: string) {
    !Truthy(Lookup(entries, PStr(name)).GetOr(PNone))
  }

  /** The first of `names` that is missing or falsy. */
  function FirstMissing(entries: seq<(Value, Value)>, names: seq<string>): (r: Option<string>)
    ensures r.None? <==> forall k :: 0 <= k < |names| ==> !MissingParameter(entries, names[k])
    ensures r.Some? ==> exists k :: 0 <= k < |names| && names[k] == r.value && MissingParameter(entries, r.value) &&
                          forall j :: 0 <= j < k ==> !MissingParameter(entries, names[j])
  {
    if names == [] then None
    else if MissingParameter(entries, names[0]) then Some(names[0])
    else
      var r := FirstMissing(entries, names[1..]);
      assert forall k :: 1 <= k < |names| ==> names[k] == names[1..][k - 1];
      r
  }

  /** A `_handle_*` method: every required parameter must be present and
      truthy (ValueError otherwise); then the component is called. Parameters
      that are not a dict fail at the first `.get`. */
  function Handle(a: ActionType, parameters: Value, component: (ActionType, Value) -> Call<Value>): (r: Call<Value>)
    ensures !parameters.PDict? ==> r == Raised("'" + TypeName(parameters) + "' object has no attribute 'get'")
    ensures parameters.PDict? && FirstMissing(parameters.entries, RequiredParameters(a)).Some? ==>
              r == Raised("Missing required parameter: " + FirstMissing(parameters.entries, RequiredParameters(a)).value)
    ensures parameters.PDict? && FirstMissing(parameters.entries, RequiredParameters(a)).None? ==> r == component(a, parameters)
  {
    if !parameters.PDict? then Raised("'" + TypeName(parameters) + "' object has no attribute 'get'")
    else
      match FirstMissing(parameters.entries, RequiredParameters(a))
      case Some(name) => Raised("Missing required parameter: " + name)
      case None => component(a, parameters)
  }

  /** What `process_request` receives: a request object or a dict. */
  datatype RequestInput = FromObject(request: AgentRequest) | FromDict(entries: seq<(Value, Value)>)

  /** A handler method of the interface, `_handle_<action>`, named by the
      action type whose value it is named after. */
  datatype Handler = HandlerFor(action: ActionType)

  class AgentInterface {
    /** The components the handlers call. */
    const component: (ActionType, Value) -> Call<Value>
    var actionHandlers: map<ActionType, Handler>

    /** `__init__`: every action type is mapped to its own handler. */
    constructor (component: (ActionType, Value) -> Call<Value>)
      ensures this.component == component
      ensures actionHandlers.Keys == AllActions
      ensures forall a :: a in actionHandlers ==> actionHandlers[a] == HandlerFor(a)
    {
      this.component := component;
      actionHandlers := map[
        IndexProject := HandlerFor(IndexProject),
        SearchCode := HandlerFor(SearchCode),
        GetCodeContext := HandlerFor(GetCodeContext),
        AnalyzeCode := HandlerFor(AnalyzeCode),
        FindSimilarCode := HandlerFor(FindSimilarCode),
        NaturalLanguageSearch := HandlerFor(NaturalLanguageSearch),
        GetRelatedCode := HandlerFor(GetRelatedCode),
        GetFileOverview := HandlerFor(GetFileOverview)
      ];
    }

    /** Calling a handler on the request's parameters. */
    function Invoke(h: Handler, parameters: Value): Call<Value> {
      Handle(h.action, parameters, component)
    }

    /** `process_request`. A dict that `from_dict` rejects gives a failure
        whose error starts "Invalid request format: " and whose id is the
        dict's `request_id` or "unknown"; an action without a handler gives
        "Unknown action: ..."; otherwise the handler's value is the data of
        a success and its exception the error of a failure. */
    function ProcessRequest(input: RequestInput): (r: AgentResponse)
      reads this
      ensures input.FromDict? && RequestFromDict(input.entries).Raised? ==>
        r == AgentResponse(Lookup(input.entries, PStr("request_id")).GetOr(PStr("unknown")), PBool(false), PNone,
                           PStr("Invalid request format: " + RequestFromDict(input.entries).message))
      ensures r.success == PBool(true) || r.success == PBool(false)
      ensures r.success == PBool(true) ==> r.error == PNone
      ensures r.success == PBool(false) ==> r.data == PNone && r.error.PStr?
    {
      var req :=
        match input
        case FromObject(request) => Returned(request)
        case FromDict(entries) => RequestFromDict(entries);
      match req
      case Raised(m) =>
        AgentResponse(Lookup(input.entries, PStr("request_id")).GetOr(PStr("unknown")), PBool(false), PNone,
                      PStr("Invalid request format: " + m))
      case Returned(request) =>
        if request.action !in actionHandlers then
          AgentResponse(request.requestId, PBool(false), PNone, PStr("Unknown action: " + request.action.Value()))
        else
          match Invoke(actionHandlers[request.action], request.parameters)
          case Returned(result) => AgentResponse(request.requestId, PBool(true), result, PNone)
          case Raised(m) => AgentResponse(request.requestId, PBool(false), PNone, PStr(m))
    }

    /** Every action has a handler, so "Unknown action" never happens; a
        request succeeds exactly when its handler returns, with the handler's
        value as data and the request's id, and fails with the handler's
        exception message otherwise. */
    lemma ProcessObject(request: AgentRequest)
      requires actionHandlers.Keys == AllActions
      requires forall a :: a in actionHandlers ==> actionHandlers[a] == HandlerFor(a)
      ensures var r := ProcessRequest(FromObject(request));
        var h := Handle(request.action, request.parameters, component);
        r.requestId == request.requestId &&
        (h.Returned? ==> r == AgentResponse(request.requestId, PBool(true), h.value, PNone)) &&
        (h.Raised? ==> r == AgentResponse(request.requestId, PBool(false), PNone, PStr(h.message)))
    {
      ActionsComplete(request.action);
    }

    /** A missing or falsy required parameter fails the request with the
        ValueError's message. */
    lemma MissingParameterFails(request: AgentRequest, name: string)
      requires actionHandlers.Keys == AllActions
      requires forall a :: a in actionHandlers ==> actionHandlers[a] == HandlerFor(a)
      requires request.parameters.PDict?
      requires FirstMissing(request.parameters.entries, RequiredParameters(request.action)) == Some(name)
      ensures ProcessRequest(FromObject(request)) ==
        AgentResponse(request.requestId, PBool(false), PNone, PStr("Missing required parameter: " + name))
    {
      ProcessObject(request);
    }

    /** A request and its dict form are processed alike. */
    lemma DictFormAgrees(request: AgentRequest)
      ensures ProcessRequest(FromDict(RequestToDict(request).entries)) == ProcessRequest(FromObject(request))
    {
      RequestRoundTrip(request);
    }
  }
}
