/** The mapping epics (src/modules/mappings/store/epics.ts) as decision
    functions. Each epic sees one action, a snapshot of the store state and,
    when it calls the HTTP API, the result that call settles with; it answers
    with the call it makes (if any) and what it puts on the action stream. */
module Epics {
  import opened MappingTypes
  import opened Actions

  /** The editor pane every epic addresses */
  const DefaultPane: string := "default"

  /** What `addContentToCurrentPaneAction` opens in a pane */
  datatype PaneContent = PaneContent(
    id: string,
    contentType: string,
    isCurrent: bool,
    isUnique: bool,
    serverName: string,
    mappingId: string,
    name: Option<string>
  )

  /** One item an epic puts on the action stream */
  datatype Emitted =
    | Dispatch(action: MappingsAction)
    | RemoveContentFromAllPanes(paneId: string, contentId: string)
    | AddContentToCurrentPane(paneId: string, content: PaneContent)
      /** a `catchError(...)` operator function that sits in a `from([...])`
          list as a plain value; it is emitted, not applied */
    | OperatorValue

  /** A call of the HTTP API client */
  datatype ApiCall =
    | GetMappings(server: Server)
    | GetMapping(server: Server, mappingId: string)
    | CreateMapping(server: Server, draft: MappingDraft)
    | UpdateMapping(server: Server, mapping: Mapping)
    | DeleteMapping(server: Server, mappingId: string)

  /** How an API call settles: with its response or with an error message */
  datatype ApiResult<+T> = Ok(value: T) | Err(message: string)

  /** The items an epic emits, or the error that escapes it uncaught */
  datatype Outcome = Emits(items: seq<Emitted>) | Fails(message: string)

  /** The API call an epic makes (if any) and its outcome */
  datatype Reaction = Reaction(call: Option<ApiCall>, outcome: Outcome)

  /** No call and nothing emitted (`EMPTY`, or an action the epic does not handle) */
  const Ignored: Reaction := Reaction(None, Emits([]))

  /** `servers.find(s => s.name === name)`: the first server with that name */
  function FindServer(servers: seq<Server>, name: string): (r: Option<Server>)
    ensures r.None? <==> forall k | 0 <= k < |servers| :: servers[k].name != name
    ensures r.Some? ==> exists k | 0 <= k < |servers| ::
      servers[k] == r.value && r.value.name == name && forall j | 0 <= j < k :: servers[j].name != name
  {
    if servers == [] then None
    else if servers[0].name == name then Some(servers[0])
    else
      var r := FindServer(servers[1..], name);
      assert r.Some? ==> exists k | 0 <= k < |servers[1..]| ::
        servers[1..][k] == r.value && r.value.name == name && forall j | 0 <= j < k :: servers[1..][j].name != name;
      r
  }

  /** `omit(mapping, ['id', 'uuid'])` */
  function Omit(m: Mapping): (d: MappingDraft)
    ensures WithIds(d, m.id, m.uuid) == m
  {
    MappingDraft(m.name, m.request, m.response, m.persistent, m.metadata)
  }

  /** A draft completed with an `id` and a `uuid` */
  function WithIds(d: MappingDraft, id: string, uuid: string): Mapping
  {
    Mapping(id, uuid, d.name, d.request, d.response, d.persistent, d.metadata)
  }

  /** The pane content id of the creation form for a creation id */
  function CreationContentId(serverName: string, creationId: string): string
  {
    serverName + ".mapping.create." + creationId
  }

  // ------------------------------------------------------------------ epics

  /** `shouldLoadServerMappingsEpic`: at most one load per server. A load is
      requested unless the server's collection exists and is loading or loaded. */
  function ShouldLoadServerMappingsEpic(state: AppState, action: MappingsAction): (r: Reaction)
    ensures r.call.None? && r.outcome.Emits?
    ensures |r.outcome.items| <= 1
    ensures |r.outcome.items| == 1 <==>
      action.LoadServerMappingsAction? &&
      (action.server.name !in state.mappings ||
       (!state.mappings[action.server.name].isLoading && !state.mappings[action.server.name].haveBeenLoaded))
    ensures |r.outcome.items| == 1 ==>
      r.outcome.items[0] == Dispatch(LoadServerMappingsRequest(action.server))
  {
    if !action.LoadServerMappingsAction? then Ignored
    else
      var entry := if action.server.name in state.mappings then Some(state.mappings[action.server.name]) else None;
      if entry.Some? && (entry.value.isLoading || entry.value.haveBeenLoaded) then Ignored
      else Reaction(None, Emits([Dispatch(LoadServerMappingsRequest(action.server))]))
  }

  /** `loadServerMappingsEpic`: fetch all mappings of the requested server */
  function LoadServerMappingsEpic(action: MappingsAction, result: ApiResult<seq<Mapping>>): (r: Reaction)
    ensures !action.LoadServerMappingsRequestAction? ==> r == Ignored
    ensures action.LoadServerMappingsRequestAction? ==>
      r.call == Some(GetMappings(action.server)) && r.outcome.Emits? && |r.outcome.items| == 1
    ensures action.LoadServerMappingsRequestAction? && result.Ok? ==>
      r.outcome.items[0] == Dispatch(LoadServerMappingsSuccess(action.server, result.value))
    ensures action.LoadServerMappingsRequestAction? && result.Err? ==>
      r.outcome.items[0] == Dispatch(LoadServerMappingsError(action.server, result.message))
  {
    if !action.LoadServerMappingsRequestAction? then Ignored
    else
      var item := match result
        case Ok(mappings) => LoadServerMappingsSuccess(action.server, mappings)
        case Err(message) => LoadServerMappingsError(action.server, message);
      Reaction(Some(GetMappings(action.server)), Emits([Dispatch(item)]))
  }

  /** `fetchMappingsEpic`: fetch one mapping of a known server */
  function FetchMappingsEpic(state: AppState, action: MappingsAction, result: ApiResult<Mapping>): (r: Reaction)
    ensures !action.FetchMappingRequestAction? ==> r == Ignored
    ensures action.FetchMappingRequestAction? ==>
      (r.call.None? <==> FindServer(state.servers, action.serverName).None?)
    ensures r.call.None? ==> r == Ignored
    ensures r.call.Some? ==>
      r.call.value == GetMapping(FindServer(state.servers, action.serverName).value, action.mappingId)
      && r.outcome.Emits? && |r.outcome.items| == 1
    ensures r.call.Some? && result.Ok? ==>
      r.outcome.items[0] == Dispatch(FetchMappingSuccess(action.serverName, action.mappingId, result.value))
    ensures r.call.Some? && result.Err? ==>
      r.outcome.items[0] == Dispatch(FetchMappingError(action.serverName, action.mappingId, result.message))
  {
    if !action.FetchMappingRequestAction? then Ignored
    else match FindServer(state.servers, action.serverName)
      case None => Ignored
      case Some(server) =>
        var item := match result
          case Ok(mapping) => FetchMappingSuccess(action.serverName, action.mappingId, mapping)
          case Err(message) => FetchMappingError(action.serverName, action.mappingId, message);
        Reaction(Some(GetMapping(server, action.mappingId)), Emits([Dispatch(item)]))
  }

  /** The items emitted once the server has created a mapping */
  function CreatedItems(server: Server, serverName: string, creationId: string, created: Mapping): seq<Emitted>
  {
    [ RemoveContentFromAllPanes(DefaultPane, CreationContentId(server.name, creationId)),
      Dispatch(CreateMappingSuccess(serverName, created.id, creationId, created)),
      OperatorValue,
      AddContentToCurrentPane(DefaultPane,
        PaneContent(created.id, "mapping", true, false, server.name, created.id, created.name)) ]
  }

  /** `createMappingEpic`: create the mapping without its `id` and `uuid`; on
      success close the creation form, report the creation and open the new
      mapping. A failed call is not caught. */
  function CreateMappingEpic(state: AppState, action: MappingsAction, result: ApiResult<Mapping>): (r: Reaction)
    ensures !action.CreateMappingRequestAction? ==> r == Ignored
    ensures action.CreateMappingRequestAction? ==>
      (r.call.None? <==> FindServer(state.servers, action.serverName).None?)
    ensures r.call.None? ==> r == Ignored
    ensures r.call.Some? ==>
      && r.call.value.CreateMapping?
      && r.call.value.server == FindServer(state.servers, action.serverName).value
      && WithIds(r.call.value.draft, action.mapping.id, action.mapping.uuid) == action.mapping
    ensures r.call.Some? && result.Err? ==> r.outcome == Fails(result.message)
    ensures r.call.Some? && result.Ok? ==>
      && r.outcome.Emits? && |r.outcome.items| == 4
      && r.outcome.items[0] == RemoveContentFromAllPanes(DefaultPane, CreationContentId(action.serverName, action.creationId))
      && r.outcome.items[1] == Dispatch(CreateMappingSuccess(action.serverName, result.value.id, action.creationId, result.value))
      && r.outcome.items[2] == OperatorValue
      && r.outcome.items[3].AddContentToCurrentPane?
      && r.outcome.items[3].content.id == result.value.id
      && r.outcome.items[3].content.mappingId == result.value.id
      && r.outcome.items[3].content.isCurrent
  {
    if !action.CreateMappingRequestAction? then Ignored
    else match FindServer(state.servers, action.serverName)
      case None => Ignored
      case Some(server) =>
        var call := CreateMapping(server, Omit(action.mapping));
        match result
        case Ok(created) => Reaction(Some(call), Emits(CreatedItems(server, action.serverName, action.creationId, created)))
        case Err(message) => Reaction(Some(call), Fails(message))
  }

  /** `updateMappingEpic`: save a mapping of a known server */
  function UpdateMappingEpic(state: AppState, action: MappingsAction, result: ApiResult<Mapping>): (r: Reaction)
    ensures !action.UpdateMappingRequestAction? ==> r == Ignored
    ensures action.UpdateMappingRequestAction? ==>
      (r.call.None? <==> FindServer(state.servers, action.serverName).None?)
    ensures r.call.None? ==> r == Ignored
    ensures r.call.Some? ==>
      r.call.value == UpdateMapping(FindServer(state.servers, action.serverName).value, action.mapping)
      && r.outcome.Emits? && |r.outcome.items| == 1
    ensures r.call.Some? && result.Ok? ==>
      r.outcome.items[0] == Dispatch(UpdateMappingSuccess(action.serverName, action.mappingId, result.value))
    ensures r.call.Some? && result.Err? ==>
      r.outcome.items[0] == Dispatch(UpdateMappingError(action.serverName, action.mappingId, action.mapping, result.message))
  {
    if !action.UpdateMappingRequestAction? then Ignored
    else match FindServer(state.servers, action.serverName)
      case None => Ignored
      case Some(server) =>
        var item := match result
          case Ok(saved) => UpdateMappingSuccess(action.serverName, action.mappingId, saved)
          case Err(message) => UpdateMappingError(action.serverName, action.mappingId, action.mapping, message);
        Reaction(Some(UpdateMapping(server, action.mapping)), Emits([Dispatch(item)]))
  }

  /** `deleteMappingEpic`: delete a mapping of a known server; on success close
      it in every pane, then report the deletion. A failed call is not caught. */
  function DeleteMappingEpic(state: AppState, action: MappingsAction, result: ApiResult<()>): (r: Reaction)
    ensures !action.DeleteMappingRequestAction? ==> r == Ignored
    ensures action.DeleteMappingRequestAction? ==>
      (r.call.None? <==> FindServer(state.servers, action.serverName).None?)
    ensures r.call.None? ==> r == Ignored
    ensures r.call.Some? ==>
      r.call.value == DeleteMapping(FindServer(state.servers, action.serverName).value, action.mappingId)
    ensures r.call.Some? && result.Err? ==> r.outcome == Fails(result.message)
    ensures r.call.Some? && result.Ok? ==>
      r.outcome == Emits([ RemoveContentFromAllPanes(DefaultPane, action.mappingId),
                           Dispatch(DeleteMappingSuccess(action.serverName, action.mappingId)),
                           OperatorValue ])
  {
    if !action.DeleteMappingRequestAction? then Ignored
    else match FindServer(state.servers, action.serverName)
      case None => Ignored
      case Some(server) =>
        var call := DeleteMapping(server, action.mappingId);
        match result
        case Ok(_) =>
          Reaction(Some(call), Emits([ RemoveContentFromAllPanes(DefaultPane, action.mappingId),
                                       Dispatch(DeleteMappingSuccess(action.serverName, action.mappingId)),
                                       OperatorValue ]))
        case Err(message) => Reaction(Some(call), Fails(message))
  }
}
