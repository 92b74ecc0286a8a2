/** The mapping lifecycle actions (src/modules/mappings/store/actions.tsx): the
    `MappingsAction` union and its creators. Each creator builds its payload
    from its arguments; the rendered notification is reduced to its kind. */
module Actions {
  import opened MappingTypes

  /** The `MappingsActionTypes` tags used by the union */
  datatype MappingsActionTypes =
    | LOAD_SERVER_MAPPINGS
    | LOAD_SERVER_MAPPINGS_REQUEST
    | LOAD_SERVER_MAPPINGS_SUCCESS
    | LOAD_SERVER_MAPPINGS_ERROR
    | FETCH_MAPPING_REQUEST
    | FETCH_MAPPING_SUCCESS
    | FETCH_MAPPING_ERROR
    | INIT_MAPPING_WORKING_COPY
    | SYNC_MAPPING_WORKING_COPY
    | UPDATE_MAPPING_REQUEST
    | UPDATE_MAPPING_SUCCESS
    | UPDATE_MAPPING_ERROR
    | DELETE_MAPPING_REQUEST
    | DELETE_MAPPING_SUCCESS
    | DELETE_MAPPING_ERROR
    | INIT_CREATE_MAPPING
    | CREATE_MAPPING_REQUEST
    | CREATE_MAPPING_SUCCESS
    | CREATE_MAPPING_ERROR
    | CANCEL_CREATE_MAPPING

  /** The kind of the notification some creators attach to their action */
  datatype NotificationKind = Danger | Success

  /** The `MappingsAction` union: one variant per action interface, holding its payload */
  datatype MappingsAction =
    | LoadServerMappingsAction(serverName: string, server: Server)
    | LoadServerMappingsRequestAction(serverName: string, server: Server)
    | LoadServerMappingsSuccessAction(serverName: string, server: Server, mappings: seq<Mapping>)
    | LoadServerMappingsErrorAction(serverName: string, server: Server, errorMessage: string)
    | FetchMappingRequestAction(serverName: string, mappingId: string)
    | FetchMappingSuccessAction(serverName: string, mappingId: string, mapping: Mapping)
    | FetchMappingErrorAction(serverName: string, mappingId: string, errorMessage: string)
    | InitMappingWorkingCopyAction(serverName: string, mappingId: string)
    | SyncMappingWorkingCopyAction(serverName: string, mappingId: string, update: Mapping)
    | UpdateMappingRequestAction(serverName: string, mappingId: string, mapping: Mapping)
    | UpdateMappingSuccessAction(serverName: string, mappingId: string, mapping: Mapping)
    | UpdateMappingErrorAction(serverName: string, mappingId: string, mapping: Mapping, errorMessage: string)
    | DeleteMappingRequestAction(serverName: string, mappingId: string)
    | DeleteMappingSuccessAction(serverName: string, mappingId: string)
    | DeleteMappingErrorAction(serverName: string, mappingId: string, errorMessage: string)
    | InitCreateMappingAction(serverName: string, creationId: string, mapping: Mapping)
    | CreateMappingRequestAction(serverName: string, creationId: string, mapping: Mapping)
    | CreateMappingSuccessAction(serverName: string, mappingId: string, creationId: string, mapping: Mapping)
    | CreateMappingErrorAction(serverName: string, mappingId: string, creationId: string, mapping: Mapping, errorMessage: string)
    | CancelMappingCreationAction(serverName: string, creationId: string)

  /** The `type` field of an action */
  function TypeOf(a: MappingsAction): MappingsActionTypes
  {
    match a
    case LoadServerMappingsAction(_, _) => LOAD_SERVER_MAPPINGS
    case LoadServerMappingsRequestAction(_, _) => LOAD_SERVER_MAPPINGS_REQUEST
    case LoadServerMappingsSuccessAction(_, _, _) => LOAD_SERVER_MAPPINGS_SUCCESS
    case LoadServerMappingsErrorAction(_, _, _) => LOAD_SERVER_MAPPINGS_ERROR
    case FetchMappingRequestAction(_, _) => FETCH_MAPPING_REQUEST
    case FetchMappingSuccessAction(_, _, _) => FETCH_MAPPING_SUCCESS
    case FetchMappingErrorAction(_, _, _) => FETCH_MAPPING_ERROR
    case InitMappingWorkingCopyAction(_, _) => INIT_MAPPING_WORKING_COPY
    case SyncMappingWorkingCopyAction(_, _, _) => SYNC_MAPPING_WORKING_COPY
    case UpdateMappingRequestAction(_, _, _) => UPDATE_MAPPING_REQUEST
    case UpdateMappingSuccessAction(_, _, _) => UPDATE_MAPPING_SUCCESS
    case UpdateMappingErrorAction(_, _, _, _) => UPDATE_MAPPING_ERROR
    case DeleteMappingRequestAction(_, _) => DELETE_MAPPING_REQUEST
    case DeleteMappingSuccessAction(_, _) => DELETE_MAPPING_SUCCESS
    case DeleteMappingErrorAction(_, _, _) => DELETE_MAPPING_ERROR
    case InitCreateMappingAction(_, _, _) => INIT_CREATE_MAPPING
    case CreateMappingRequestAction(_, _, _) => CREATE_MAPPING_REQUEST
    case CreateMappingSuccessAction(_, _, _, _) => CREATE_MAPPING_SUCCESS
    case CreateMappingErrorAction(_, _, _, _, _) => CREATE_MAPPING_ERROR
    case CancelMappingCreationAction(_, _) => CANCEL_CREATE_MAPPING
  }

  /** The kind of notification in an action's `meta`, if its creator attaches one */
  function NotificationOf(a: MappingsAction): Option<NotificationKind>
  {
    match a
    case LoadServerMappingsErrorAction(_, _, _) => Some(Danger)
    case UpdateMappingSuccessAction(_, _, _) => Some(Success)
    case UpdateMappingErrorAction(_, _, _, _) => Some(Danger)
    case DeleteMappingSuccessAction(_, _) => Some(Success)
    case DeleteMappingErrorAction(_, _, _) => Some(Danger)
    case CreateMappingSuccessAction(_, _, _, _) => Some(Success)
    case CreateMappingErrorAction(_, _, _, _, _) => Some(Danger)
    case _ => None
  }

  /** The position of a tag in the declaration of `MappingsActionTypes` */
  function Ordinal(t: MappingsActionTypes): nat
  {
    match t
    case LOAD_SERVER_MAPPINGS => 0
    case LOAD_SERVER_MAPPINGS_REQUEST => 1
    case LOAD_SERVER_MAPPINGS_SUCCESS => 2
    case LOAD_SERVER_MAPPINGS_ERROR => 3
    case FETCH_MAPPING_REQUEST => 4
    case FETCH_MAPPING_SUCCESS => 5
    case FETCH_MAPPING_ERROR => 6
    case INIT_MAPPING_WORKING_COPY => 7
    case SYNC_MAPPING_WORKING_COPY => 8
    case UPDATE_MAPPING_REQUEST => 9
    case UPDATE_MAPPING_SUCCESS => 10
    case UPDATE_MAPPING_ERROR => 11
    case DELETE_MAPPING_REQUEST => 12
    case DELETE_MAPPING_SUCCESS => 13
    case DELETE_MAPPING_ERROR => 14
    case INIT_CREATE_MAPPING => 15
    case CREATE_MAPPING_REQUEST => 16
    case CREATE_MAPPING_SUCCESS => 17
    case CREATE_MAPPING_ERROR => 18
    case CANCEL_CREATE_MAPPING => 19
  }

  /** Every tag of the union, in declaration order */
  function AllActionTypes(): (r: seq<MappingsActionTypes>)
    ensures |r| == 20
    ensures forall i, j | 0 <= i < j < |r| :: r[i] != r[j]
    ensures forall t: MappingsActionTypes :: t in r
  {
    var r := [ LOAD_SERVER_MAPPINGS, LOAD_SERVER_MAPPINGS_REQUEST, LOAD_SERVER_MAPPINGS_SUCCESS,
      LOAD_SERVER_MAPPINGS_ERROR, FETCH_MAPPING_REQUEST, FETCH_MAPPING_SUCCESS,
      FETCH_MAPPING_ERROR, INIT_MAPPING_WORKING_COPY, SYNC_MAPPING_WORKING_COPY,
      UPDATE_MAPPING_REQUEST, UPDATE_MAPPING_SUCCESS, UPDATE_MAPPING_ERROR,
      DELETE_MAPPING_REQUEST, DELETE_MAPPING_SUCCESS, DELETE_MAPPING_ERROR,
      INIT_CREATE_MAPPING, CREATE_MAPPING_REQUEST, CREATE_MAPPING_SUCCESS,
      CREATE_MAPPING_ERROR, CANCEL_CREATE_MAPPING ];
    assert forall t: MappingsActionTypes :: t in r by {
      forall t: MappingsActionTypes ensures t in r {
        assert Ordinal(t) < 20 && r[Ordinal(t)] == t;
      }
    }
    r
  }

  /** Distinct variants of the union carry distinct tags */
  lemma TagDeterminesVariant(a: MappingsAction, b: MappingsAction)
    requires TypeOf(a) == TypeOf(b)
    ensures a.LoadServerMappingsAction? == b.LoadServerMappingsAction?
    ensures a.LoadServerMappingsRequestAction? == b.LoadServerMappingsRequestAction?
    ensures a.LoadServerMappingsSuccessAction? == b.LoadServerMappingsSuccessAction?
    ensures a.LoadServerMappingsErrorAction? == b.LoadServerMappingsErrorAction?
    ensures a.FetchMappingRequestAction? == b.FetchMappingRequestAction?
    ensures a.FetchMappingSuccessAction? == b.FetchMappingSuccessAction?
    ensures a.FetchMappingErrorAction? == b.FetchMappingErrorAction?
    ensures a.InitMappingWorkingCopyAction? == b.InitMappingWorkingCopyAction?
    ensures a.SyncMappingWorkingCopyAction? == b.SyncMappingWorkingCopyAction?
    ensures a.UpdateMappingRequestAction? == b.UpdateMappingRequestAction?
    ensures a.UpdateMappingSuccessAction? == b.UpdateMappingSuccessAction?
    ensures a.UpdateMappingErrorAction? == b.UpdateMappingErrorAction?
    ensures a.DeleteMappingRequestAction? == b.DeleteMappingRequestAction?
    ensures a.DeleteMappingSuccessAction? == b.DeleteMappingSuccessAction?
    ensures a.DeleteMappingErrorAction? == b.DeleteMappingErrorAction?
    ensures a.InitCreateMappingAction? == b.InitCreateMappingAction?
    ensures a.CreateMappingRequestAction? == b.CreateMappingRequestAction?
    ensures a.CreateMappingSuccessAction? == b.CreateMappingSuccessAction?
    ensures a.CreateMappingErrorAction? == b.CreateMappingErrorAction?
    ensures a.CancelMappingCreationAction? == b.CancelMappingCreationAction?
  {
  }

  // ---------------------------------------------------------------- creators

  function LoadServerMappings(server: Server): (a: MappingsAction)
    ensures TypeOf(a) == LOAD_SERVER_MAPPINGS && NotificationOf(a) == None
    ensures a.serverName == server.name && a.server == server
  {
    LoadServerMappingsAction(server.name, server)
  }

  function LoadServerMappingsRequest(server: Server): (a: MappingsAction)
    ensures TypeOf(a) == LOAD_SERVER_MAPPINGS_REQUEST && NotificationOf(a) == None
    ensures a.serverName == server.name && a.server == server
  {
    LoadServerMappingsRequestAction(server.name, server)
  }

  function LoadServerMappingsSuccess(server: Server, mappings: seq<Mapping>): (a: MappingsAction)
    ensures TypeOf(a) == LOAD_SERVER_MAPPINGS_SUCCESS && NotificationOf(a) == None
    ensures a.serverName == server.name && a.server == server && a.mappings == mappings
  {
    LoadServerMappingsSuccessAction(server.name, server, mappings)
  }

  function LoadServerMappingsError(server: Server, errorMessage: string): (a: MappingsAction)
    ensures TypeOf(a) == LOAD_SERVER_MAPPINGS_ERROR && NotificationOf(a) == Some(Danger)
    ensures a.serverName == server.name && a.server == server && a.errorMessage == errorMessage
  {
    LoadServerMappingsErrorAction(server.name, server, errorMessage)
  }

  function FetchMappingRequest(serverName: string, mappingId: string): (a: MappingsAction)
    ensures TypeOf(a) == FETCH_MAPPING_REQUEST && NotificationOf(a) == None
    ensures a.serverName == serverName && a.mappingId == mappingId
  {
    FetchMappingRequestAction(serverName, mappingId)
  }

  function FetchMappingSuccess(serverName: string, mappingId: string, mapping: Mapping): (a: MappingsAction)
    ensures TypeOf(a) == FETCH_MAPPING_SUCCESS && NotificationOf(a) == None
    ensures a.serverName == serverName && a.mappingId == mappingId && a.mapping == mapping
  {
    FetchMappingSuccessAction(serverName, mappingId, mapping)
  }

  /** The one error creator that attaches no notification */
  function FetchMappingError(serverName: string, mappingId: string, errorMessage: string): (a: MappingsAction)
    ensures TypeOf(a) == FETCH_MAPPING_ERROR && NotificationOf(a) == None
    ensures a.serverName == serverName && a.mappingId == mappingId && a.errorMessage == errorMessage
  {
    FetchMappingErrorAction(serverName, mappingId, errorMessage)
  }

  function InitMappingWorkingCopy(serverName: string, mappingId: string): (a: MappingsAction)
    ensures TypeOf(a) == INIT_MAPPING_WORKING_COPY && NotificationOf(a) == None
    ensures a.serverName == serverName && a.mappingId == mappingId
  {
    InitMappingWorkingCopyAction(serverName, mappingId)
  }

  function SyncMappingWorkingCopy(serverName: string, mappingId: string, update: Mapping): (a: MappingsAction)
    ensures TypeOf(a) == SYNC_MAPPING_WORKING_COPY && NotificationOf(a) == None
    ensures a.serverName == serverName && a.mappingId == mappingId && a.update == update
  {
    SyncMappingWorkingCopyAction(serverName, mappingId, update)
  }

  function UpdateMappingRequest(serverName: string, mappingId: string, mapping: Mapping): (a: MappingsAction)
    ensures TypeOf(a) == UPDATE_MAPPING_REQUEST && NotificationOf(a) == None
    ensures a.serverName == serverName && a.mappingId == mappingId && a.mapping == mapping
  {
    UpdateMappingRequestAction(serverName, mappingId, mapping)
  }

  function UpdateMappingSuccess(serverName: string, mappingId: string, mapping: Mapping): (a: MappingsAction)
    ensures TypeOf(a) == UPDATE_MAPPING_SUCCESS && NotificationOf(a) == Some(Success)
    ensures a.serverName == serverName && a.mappingId == mappingId && a.mapping == mapping
  {
    UpdateMappingSuccessAction(serverName, mappingId, mapping)
  }

  function UpdateMappingError(serverName: string, mappingId: string, mapping: Mapping, errorMessage: string): (a: MappingsAction)
    ensures TypeOf(a) == UPDATE_MAPPING_ERROR && NotificationOf(a) == Some(Danger)
    ensures a.serverName == serverName && a.mappingId == mappingId && a.mapping == mapping
    ensures a.errorMessage == errorMessage
  {
    UpdateMappingErrorAction(serverName, mappingId, mapping, errorMessage)
  }

  function DeleteMappingRequest(serverName: string, mappingId: string): (a: MappingsAction)
    ensures TypeOf(a) == DELETE_MAPPING_REQUEST && NotificationOf(a) == None
    ensures a.serverName == serverName && a.mappingId == mappingId
  {
    DeleteMappingRequestAction(serverName, mappingId)
  }

  function DeleteMappingSuccess(serverName: string, mappingId: string): (a: MappingsAction)
    ensures TypeOf(a) == DELETE_MAPPING_SUCCESS && NotificationOf(a) == Some(Success)
    ensures a.serverName == serverName && a.mappingId == mappingId
  {
    DeleteMappingSuccessAction(serverName, mappingId)
  }

  function DeleteMappingError(serverName: string, mappingId: string, errorMessage: string): (a: MappingsAction)
    ensures TypeOf(a) == DELETE_MAPPING_ERROR && NotificationOf(a) == Some(Danger)
    ensures a.serverName == serverName && a.mappingId == mappingId && a.errorMessage == errorMessage
  {
    DeleteMappingErrorAction(serverName, mappingId, errorMessage)
  }

  /** The blank mapping a creation form starts from: its `id` and `uuid` are
      the creation id, the request is a GET, the response a 200, it is not
      persistent and its folder is empty */
  function DefaultMapping(creationId: string): (m: Mapping)
    ensures m.id == creationId && m.uuid == creationId
    ensures m.name.None? && m.request.httpMethod == "GET" && m.request.url.None?
    ensures m.response.status == 200 && !m.persistent
    ensures m.metadata == Some(Metadata(Some("")))
  {
    Mapping(creationId, creationId, None, Request("GET", None), Response(200), false, Some(Metadata(Some(""))))
  }

  function InitCreateMapping(serverName: string, creationId: string): (a: MappingsAction)
    ensures TypeOf(a) == INIT_CREATE_MAPPING && NotificationOf(a) == None
    ensures a.serverName == serverName && a.creationId == creationId
    ensures a.mapping.id == creationId && a.mapping.uuid == creationId
    ensures a.mapping == DefaultMapping(creationId)
  {
    InitCreateMappingAction(serverName, creationId, DefaultMapping(creationId))
  }

  function CreateMappingRequest(serverName: string, creationId: string, mapping: Mapping): (a: MappingsAction)
    ensures TypeOf(a) == CREATE_MAPPING_REQUEST && NotificationOf(a) == None
    ensures a.serverName == serverName && a.creationId == creationId && a.mapping == mapping
  {
    CreateMappingRequestAction(serverName, creationId, mapping)
  }

  function CreateMappingSuccess(serverName: string, mappingId: string, creationId: string, mapping: Mapping): (a: MappingsAction)
    ensures TypeOf(a) == CREATE_MAPPING_SUCCESS && NotificationOf(a) == Some(Success)
    ensures a.serverName == serverName && a.mappingId == mappingId && a.creationId == creationId
    ensures a.mapping == mapping
  {
    CreateMappingSuccessAction(serverName, mappingId, creationId, mapping)
  }

  function CreateMappingError(serverName: string, mappingId: string, creationId: string, mapping: Mapping, errorMessage: string): (a: MappingsAction)
    ensures TypeOf(a) == CREATE_MAPPING_ERROR && NotificationOf(a) == Some(Danger)
    ensures a.serverName == serverName && a.mappingId == mappingId && a.creationId == creationId
    ensures a.mapping == mapping && a.errorMessage == errorMessage
  {
    CreateMappingErrorAction(serverName, mappingId, creationId, mapping, errorMessage)
  }

  function CancelMappingCreation(serverName: string, creationId: string): (a: MappingsAction)
    ensures TypeOf(a) == CANCEL_CREATE_MAPPING && NotificationOf(a) == None
    ensures a.serverName == serverName && a.creationId == creationId
  {
    CancelMappingCreationAction(serverName, creationId)
  }

  /** An action reporting a failure carries an `errorMessage` */
  predicate IsError(a: MappingsAction)
  {
    a.LoadServerMappingsErrorAction? || a.FetchMappingErrorAction? || a.UpdateMappingErrorAction?
    || a.DeleteMappingErrorAction? || a.CreateMappingErrorAction?
  }

  /** A danger notification is attached exactly to the error actions other than
      the fetch error; a success notification only to successes of a change */
  lemma NotificationKinds(a: MappingsAction)
    ensures NotificationOf(a) == Some(Danger) <==> IsError(a) && !a.FetchMappingErrorAction?
    ensures NotificationOf(a) == Some(Success) <==>
      a.UpdateMappingSuccessAction? || a.DeleteMappingSuccessAction? || a.CreateMappingSuccessAction?
  {
  }
}
