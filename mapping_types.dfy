/** The shapes of the mapping store that the explorer, the action creators and
    the epics read: servers, mappings and the per-server mapping collections.
    Only the fields these components read or write are modelled. */
module MappingTypes {

  datatype Option<+T> = None | Some(value: T)

  /** A configured mock server; its identity is its name. `url` stands for the
      connection settings that only the HTTP client reads. */
  datatype Server = Server(name: string, url: string)

  /** The request matcher of a mapping: its HTTP method (`method`) and, when present, its
      plain `url` field (the other URL-defining fields are left abstract). */
  datatype Request = Request(httpMethod: string, url: Option<string>)

  datatype Response = Response(status: int)

  /** `folder` is a `/`-separated path used only to place the mapping in the tree */
  datatype Metadata = Metadata(folder: Option<string>)

  /** A stub rule of a mock server */
  datatype Mapping = Mapping(
    id: string,
    uuid: string,
    name: Option<string>,
    request: Request,
    response: Response,
    persistent: bool,
    metadata: Option<Metadata>
  )

  /** A mapping without its `id` and `uuid` fields */
  datatype MappingDraft = MappingDraft(
    name: Option<string>,
    request: Request,
    response: Response,
    persistent: bool,
    metadata: Option<Metadata>
  )

  /** One `byId` entry of a collection; `mapping` is undefined until it is fetched */
  datatype MappingEntry = MappingEntry(mapping: Option<Mapping>)

  /** The mappings of one server: the ordered ids, the entry of each id and the
      two flags that suppress duplicate loads */
  datatype ServerMappings = ServerMappings(
    ids: seq<string>,
    byId: map<string, MappingEntry>,
    isLoading: bool,
    haveBeenLoaded: bool
  )

  /** The part of the application state the epics read */
  datatype AppState = AppState(servers: seq<Server>, mappings: map<string, ServerMappings>)
}
