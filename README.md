# wiremock-ui: explorer tree, mapping actions and mapping epics

A model in Dafny of three pieces of wiremock-ui, a browser front end for
WireMock servers:

- **The explorer tree** that `mapStateToProps` builds for the side panel. The
  input is the list of servers, the per-server mapping collections of the store
  and the ids of the contents shown in the default pane. The output has a root
  labelled 'servers' and one node per server. A server whose mappings are in
  the store gets a 'create mapping' node and a 'mappings' node. Each loaded
  mapping becomes a leaf, under folder nodes found or created by splitting the
  mapping's `metadata.folder` on `/`. The last child of the root is a 'create
  server' node.
- **The mapping action algebra**: the 20 variants of `MappingsAction` and their
  creators, including the blank mapping `initCreateMapping` starts from.
- **The mapping epics**: for one action, one snapshot of the store and the
  result the HTTP call settles with, the call an epic makes and what it puts on
  the action stream.

Modules, one file each:

- `MappingTypes` (`mapping_types.dfy`): the mapping, server and store records.
- `Actions` (`actions.dfy`): the action union and its creators.
- `Epics` (`epics.dfy`): the six epics as decision functions.
- `FolderTree` (`folder_tree.dfy`): the tree, the folder search, folder
  resolution and path splitting.
- `ExplorerSpec` (`explorer_spec.dfy`): the tree `mapStateToProps` builds, as
  functions, with the lemmas that state its shape.
- `Explorer` (`explorer.dfy`): the imperative builder, class `ExplorerTree`,
  whose methods push nodes in the order the source does. Each method is proved
  to build what the `ExplorerSpec` functions describe.
- `Coherence` (`coherence.dfy`): facts that join the three pieces.

The tree is an arena, a sequence of nodes. A node's `children` holds the
indices of its children in order. `None` stands for a node with no `children`
array: a mapping leaf, the 'create mapping' node or the 'create server' node.
A node enters the arena when the code builds its object, except a mapping
leaf, which enters when it is pushed. Either way a child always sits at a
larger index than its parent (`FolderTree.WellFormed`). One `push` onto a children
array is one update of the arena. `Extends(before, after)` says that a later
state only appends nodes and appends children: no node is removed and no
sibling list is reordered.

Behaviour of the code worth noting:

- Siblings are never sorted; children keep insertion order.
- A folder node's id is the bare segment name, not the path.
  - Resolving a segment searches the whole subtree under the current node,
    the node itself included, in pre-order.
  - So `x/x` resolves both segments to one node, and a folder named like a
    folder elsewhere in the subtree is reused.
- A mapping id listed in `ids` without a `byId` entry is not handled: line 101
  dereferences it. The model requires every listed id to have an entry
  (`ExplorerSpec.IdsKnown`).

## Model

| member | source | states |
|---|---|---|
| FolderTree.FindFolderNode | src/modules/core/containers/ExplorerContainer.ts:63-71 | the recursive search with its loop over the children returns `Find`: the node itself when its id matches, else the first hit among its children's subtrees, child by child |
| FolderTree.FindIsFirstInPreOrder | src/modules/core/containers/ExplorerContainer.ts:63-71 | the search finds exactly the first node, in pre-order over the subtree under the start node (start node included), whose id is the folder name |
| FolderTree.FirstWithIdMeaning | src/modules/core/containers/ExplorerContainer.ts:63-71 | the reference search finds nothing iff no node in the order has the id, and otherwise finds the earliest node that has it |
| FolderTree.FindInSubtree | src/modules/core/containers/ExplorerContainer.ts:63-71 | a node the search finds lies in the subtree under the node it started from |
| FolderTree.Find | src/modules/core/containers/ExplorerContainer.ts:63-71 | a node found lies at or after the start node and has the folder name as id |
| FolderTree.FindAmong | src/modules/core/containers/ExplorerContainer.ts:66-69 | a node found among the children's subtrees lies strictly after the parent and has the folder name as id |
| FolderTree.FindAmongStays | src/modules/core/containers/ExplorerContainer.ts:66-69 | once a child's subtree yields a node, the later children do not change the result (the early `return res`) |
| FolderTree.PreOrderListMember | src/modules/core/containers/ExplorerContainer.ts:66-69 | a node is in the walk of the first n children's subtrees iff it is in one of those subtrees |
| FolderTree.ResolveSegment | src/modules/core/containers/ExplorerContainer.ts:90-95 | resolving a segment keeps the tree well formed and only appends. The node it lands on is at or below the current node and is named after the segment. Any node it adds is a folder node of that segment |
| FolderTree.ResolveSegmentAtNamedNode | src/modules/core/containers/ExplorerContainer.ts:64 | a segment equal to the current node's id resolves to that node and changes nothing |
| FolderTree.RepeatedSegmentResolvesOnce | src/modules/core/containers/ExplorerContainer.ts:89-95 | a segment repeated right after itself resolves to the same node: `p/x/x` lands where `p/x` does and creates nothing more |
| FolderTree.ResolveSegmentInSubtree | src/modules/core/containers/ExplorerContainer.ts:90-95 | the node a segment resolves to lies in the subtree under the current node |
| FolderTree.ResolvePath | src/modules/core/containers/ExplorerContainer.ts:88-95 | resolving the segments in turn ends on a node with a children array named after the last segment. The tree only grows, and every node added is a folder node named after one of the segments |
| FolderTree.ResolvePathStep | src/modules/core/containers/ExplorerContainer.ts:89-95 | the path up to segment i+1 resolves the (i+1)-th segment from where the path up to segment i led |
| FolderTree.ResolvePathInSubtree | src/modules/core/containers/ExplorerContainer.ts:88-95 | the node a folder path resolves to lies in the subtree under the mappings node |
| FolderTree.PushNewChildPlacement | src/modules/core/containers/ExplorerContainer.ts:83 | a pushed node is appended to the arena as the last child of its parent and of no other node, and lies in the parent's subtree. Every other node is unchanged |
| FolderTree.PlaceInFolder | src/modules/core/containers/ExplorerContainer.ts:87-98 | adding a mapping leaf to its folder keeps the tree well formed and only appends. The leaf is the last node, and no node before the start is touched |
| FolderTree.PlaceInFolderPlacement | src/modules/core/containers/ExplorerContainer.ts:96 | the leaf is the last child of a node named after the last segment, and of no other node |
| FolderTree.PlaceInFolderInSubtree | src/modules/core/containers/ExplorerContainer.ts:87-98 | the folder that receives the leaf lies under the mappings node |
| FolderTree.PlaceInFolderAddsFolders | src/modules/core/containers/ExplorerContainer.ts:73-85 | every node added besides the leaf is a folder node: id and label are a segment, type 'mappings', the server's name as data, and a children array |
| FolderTree.FolderNode | src/modules/core/containers/ExplorerContainer.ts:74-82 | a folder node has the segment as id and label, type 'mappings', the server's name as data and an empty children array |
| FolderTree.HasFolder | src/modules/core/containers/ExplorerContainer.ts:135-141 | `hasFolder`: metadata is present, its folder is present and the folder is non-empty. Its meaning in terms of the folder path is stated by `HasFolderMeaning` |
| FolderTree.HasFolderMeaning | src/modules/core/containers/ExplorerContainer.ts:135-141 | a mapping has a folder iff its metadata holds a folder whose path splits into more than the single empty segment, so an empty folder sends the leaf straight under the mappings node |
| FolderTree.Split | src/modules/core/containers/ExplorerContainer.ts:89 | splitting a folder path yields at least one part |
| FolderTree.SplitParts | src/modules/core/containers/ExplorerContainer.ts:89 | no part holds `/`, and joining the parts with `/` gives back the folder string |
| FolderTree.SplitJoin | src/modules/core/containers/ExplorerContainer.ts:89 | splitting parts joined by `/` gives back the parts, when no part holds `/` |
| FolderTree.ExtendsTransitive | src/modules/core/containers/ExplorerContainer.ts:83 | successive pushes compose: nothing removed, no sibling reordered |
| FolderTree.WithChildExtends | src/modules/core/containers/ExplorerContainer.ts:83 | pushing a child index keeps the tree well formed and keeps every existing child list as a prefix |
| FolderTree.SubtreeGrows | src/modules/core/containers/ExplorerContainer.ts:83 | pushes never take a node out of a subtree |
| ExplorerSpec.RootNode | src/modules/core/containers/ExplorerContainer.ts:23-28 | the root has id 'root', type 'root', label 'servers' and an empty children array |
| ExplorerSpec.CreateMappingNode | src/modules/core/containers/ExplorerContainer.ts:42-51 | the 'create mapping' node has id `<server>.mapping.create.<creationId>`, type 'mapping.create', the creation id in its data, and no children array |
| ExplorerSpec.ServerNode | src/modules/core/containers/ExplorerContainer.ts:32-37 | a server node has the server's name as id and label, type 'server', no data and an empty children array |
| ExplorerSpec.MappingsNode | src/modules/core/containers/ExplorerContainer.ts:53-61 | the mappings node has id `<server>.mappings`, type 'mappings', label 'mappings', the server's name as data and an empty children array |
| ExplorerSpec.ServerCreateNode | src/modules/core/containers/ExplorerContainer.ts:126-130 | the 'create server' node has id 'server.create', type 'server.create', label 'create server' and no children array |
| ExplorerSpec.MappingNode | src/modules/core/containers/ExplorerContainer.ts:103-113 | a mapping node has the mapping id as id, type 'mapping', the label `MappingLabel` gives, the given `isCurrent`, the server name, mapping id and name as data, and no children array |
| ExplorerSpec.MappingLabel | src/modules/core/containers/ExplorerContainer.ts:106 | a leaf's label is the mapping's name when that is non-empty, else its method, a space and its URL |
| ExplorerSpec.LeafContents | src/modules/core/containers/ExplorerContainer.ts:103-113 | a mapping leaf has the mapping id as id, type 'mapping' and the label above. `isCurrent` is true iff the id is among the current content ids. Its data holds the server name, the mapping id and the name. It has no children array |
| ExplorerSpec.FolderSegments | src/modules/core/containers/ExplorerContainer.ts:114-115 | a mapping with a folder has at least one segment |
| ExplorerSpec.EntryOf | src/modules/core/containers/ExplorerContainer.ts:39-41 | a server has a collection iff its name is a key of the store's mappings, and then it is that key's value |
| ExplorerSpec.AddMapping | src/modules/core/containers/ExplorerContainer.ts:114-118 | adding one leaf keeps the tree well formed and only appends, ending with the leaf. Nothing before the mappings node changes |
| ExplorerSpec.AddMappingPlacesLeaf | src/modules/core/containers/ExplorerContainer.ts:114-118 | the leaf becomes a child of a node in the subtree under the mappings node. That node is named after the folder's last segment when `hasFolder` holds, and is the mappings node itself otherwise |
| ExplorerSpec.AddMappingAddsFolders | src/modules/core/containers/ExplorerContainer.ts:73-85 | the nodes one mapping adds before its leaf are all folder nodes |
| ExplorerSpec.AddMappings | src/modules/core/containers/ExplorerContainer.ts:100-120 | the ids loop keeps the tree well formed and only appends. Nothing before the mappings node changes. Every node it adds without a children array is named after a listed id whose mapping is loaded (order and exactly-once are stated by `LeafIndices`) |
| ExplorerSpec.AddMappingsSkips | src/modules/core/containers/ExplorerContainer.ts:102 | an id whose entry has no mapping adds nothing |
| ExplorerSpec.AddMappingsAddsOneLeaf | src/modules/core/containers/ExplorerContainer.ts:102-119 | an id with a loaded mapping adds folder nodes and then exactly one node without a children array, its leaf, and keeps all earlier nodes |
| ExplorerSpec.LoadedPositionsMeaning | src/modules/core/containers/ExplorerContainer.ts:100-102 | the loaded positions are exactly the positions of the listed ids whose mapping is loaded, strictly increasing |
| ExplorerSpec.LoadedIdsListed | src/modules/core/containers/ExplorerContainer.ts:100-104 | every leaf name the loop has used is a listed id with a loaded mapping |
| ExplorerSpec.LeafIndices | src/modules/core/containers/ExplorerContainer.ts:100-120 | each loaded mapping gets exactly one leaf, the leaves are in `ids` order, and the loop adds no other node without a children array |
| ExplorerSpec.LeafIndicesNext | src/modules/core/containers/ExplorerContainer.ts:100-120 | one more id keeps the exactly-once leaf layout |
| ExplorerSpec.AddMappingsPlacesLeaves | src/modules/core/containers/ExplorerContainer.ts:100-120 | every loaded mapping's leaf hangs below the mappings node, in its folder when it has one |
| ExplorerSpec.AddMappingsStepExtends | src/modules/core/containers/ExplorerContainer.ts:100-120 | each loop step only appends to what the earlier steps built |
| ExplorerSpec.EarlierLeavesAvoidFolder | src/modules/core/containers/ExplorerContainer.ts:83-96 | when no folder segment names an earlier loaded mapping, folder resolution never stops at a leaf |
| ExplorerSpec.ServerFrame | src/modules/core/containers/ExplorerContainer.ts:42-61 | for a server with a collection, the 'create mapping' node is created and pushed onto the server node's children, then the mappings node is created. Nothing before the server node changes |
| ExplorerSpec.ServerChildren | src/modules/core/containers/ExplorerContainer.ts:39-121 | filling a server node keeps the tree well formed, only appends and touches no node before the server node |
| ExplorerSpec.ServerChildrenNodes | src/modules/core/containers/ExplorerContainer.ts:39-121 | a server with no collection has no children. A server with one has exactly two: the 'create mapping' node and then the mappings node |
| ExplorerSpec.ServerChildrenLeaves | src/modules/core/containers/ExplorerContainer.ts:100-121 | every loaded mapping's leaf hangs below the server's mappings node |
| ExplorerSpec.AddServer | src/modules/core/containers/ExplorerContainer.ts:30-123 | adding a server keeps the tree well formed and only appends |
| ExplorerSpec.AddServerBuilds | src/modules/core/containers/ExplorerContainer.ts:30-123 | a server's subtree is built at the end of the arena and its node pushed as the root's last child. No other node changes |
| ExplorerSpec.ServerBuiltGrows | src/modules/core/containers/ExplorerContainer.ts:123 | later servers leave an earlier server's subtree as it was built |
| ExplorerSpec.BuildServers | src/modules/core/containers/ExplorerContainer.ts:30-124 | the servers loop keeps the tree well formed, with the root's children array in place |
| ExplorerSpec.BuildServersShape | src/modules/core/containers/ExplorerContainer.ts:30-124 | after the first n servers, the root's children are exactly their n server nodes, in input order, each heading its server's subtree |
| ExplorerSpec.BuildTree | src/modules/core/containers/ExplorerContainer.ts:10-133 | the explorer tree is well formed |
| ExplorerSpec.ExplorerTreeShape | src/modules/core/containers/ExplorerContainer.ts:23-130 | the root is 'root'/'servers'. Its children are one node per server, in order, each heading its subtree, then exactly one 'server.create' node, last, even with no servers |
| Explorer.ExplorerTree.constructor | src/modules/core/containers/ExplorerContainer.ts:23-28 | a tree holding only the root |
| Explorer.ExplorerTree.NewNode | src/modules/core/containers/ExplorerContainer.ts:74-82 | a new node object is appended to the arena and nothing else changes |
| Explorer.ExplorerTree.PushChild | src/modules/core/containers/ExplorerContainer.ts:83 | `children.push` appends the child to the parent's children and changes nothing else |
| Explorer.ExplorerTree.CreateFolderNode | src/modules/core/containers/ExplorerContainer.ts:73-85 | a folder node named after the segment is created and pushed as the last child of the current node, and returned |
| Explorer.ExplorerTree.ResolveNextSegment | src/modules/core/containers/ExplorerContainer.ts:90-95 | one step of the folder loop leaves the tree and the current node as `ResolveSegment` describes |
| Explorer.ExplorerTree.AddToFolder | src/modules/core/containers/ExplorerContainer.ts:87-98 | the `forEach` over the segments leaves the tree as `PlaceInFolder` describes |
| Explorer.ExplorerTree.AddMappingNodes | src/modules/core/containers/ExplorerContainer.ts:100-120 | the loop over `mappings.ids` leaves the tree as `AddMappings` describes |
| Explorer.ExplorerTree.AddServerNode | src/modules/core/containers/ExplorerContainer.ts:30-123 | one `servers.forEach` step leaves the tree as `AddServer` describes and keeps it well formed |
| Explorer.ExplorerTree.AddServerNodes | src/modules/core/containers/ExplorerContainer.ts:30-124 | the `servers.forEach` leaves the tree as `BuildServers` describes |
| Explorer.MapStateToProps | src/modules/core/containers/ExplorerContainer.ts:10-133 | returns the tree `BuildTree` describes and the servers unchanged |
| Actions.TypeOf | src/modules/mappings/store/actions.tsx:524-544 | the `type` tag each variant carries, as its creator sets it. `TagDeterminesVariant` proves that distinct variants carry distinct tags |
| Actions.NotificationOf | src/modules/mappings/store/actions.tsx:70-503 | the kind of notification each creator puts in `meta`, if any. `NotificationKinds` proves which actions carry which kind |
| Actions.AllActionTypes | src/modules/mappings/store/actions.tsx:524-544 | the union has exactly 20 tags, all distinct, and every tag is one of them |
| Actions.TagDeterminesVariant | src/modules/mappings/store/actions.tsx:524-544 | two actions with the same `type` tag are the same variant |
| Actions.NotificationKinds | src/modules/mappings/store/actions.tsx:70-503 | a danger notification is attached exactly to the error actions other than the fetch error. A success notification is attached exactly to the update, delete and create successes |
| Actions.LoadServerMappings | src/modules/mappings/store/actions.tsx:16-22 | tag LOAD_SERVER_MAPPINGS, no notification, `serverName` is the server's name and the server is carried unchanged |
| Actions.LoadServerMappingsRequest | src/modules/mappings/store/actions.tsx:32-38 | tag LOAD_SERVER_MAPPINGS_REQUEST, the server's name and the server unchanged |
| Actions.LoadServerMappingsSuccess | src/modules/mappings/store/actions.tsx:49-59 | tag LOAD_SERVER_MAPPINGS_SUCCESS, the server's name, the server and the mappings unchanged |
| Actions.LoadServerMappingsError | src/modules/mappings/store/actions.tsx:70-92 | tag LOAD_SERVER_MAPPINGS_ERROR, a danger notification, and the server and error message unchanged |
| Actions.FetchMappingRequest | src/modules/mappings/store/actions.tsx:102-111 | tag FETCH_MAPPING_REQUEST with the server name and mapping id |
| Actions.FetchMappingSuccess | src/modules/mappings/store/actions.tsx:122-133 | tag FETCH_MAPPING_SUCCESS with the server name, mapping id and mapping |
| Actions.FetchMappingError | src/modules/mappings/store/actions.tsx:144-155 | tag FETCH_MAPPING_ERROR, no notification, and the server name, mapping id and error message unchanged |
| Actions.InitMappingWorkingCopy | src/modules/mappings/store/actions.tsx:165-174 | tag INIT_MAPPING_WORKING_COPY with the server name and mapping id |
| Actions.SyncMappingWorkingCopy | src/modules/mappings/store/actions.tsx:185-196 | tag SYNC_MAPPING_WORKING_COPY with the server name, mapping id and the updated mapping |
| Actions.UpdateMappingRequest | src/modules/mappings/store/actions.tsx:207-218 | tag UPDATE_MAPPING_REQUEST with the server name, mapping id and mapping |
| Actions.UpdateMappingSuccess | src/modules/mappings/store/actions.tsx:239-261 | tag UPDATE_MAPPING_SUCCESS, a success notification, and the server name, mapping id and mapping |
| Actions.UpdateMappingError | src/modules/mappings/store/actions.tsx:263-288 | tag UPDATE_MAPPING_ERROR, a danger notification, and the server name, mapping id, mapping and error message unchanged |
| Actions.DeleteMappingRequest | src/modules/mappings/store/actions.tsx:298-307 | tag DELETE_MAPPING_REQUEST with the server name and mapping id |
| Actions.DeleteMappingSuccess | src/modules/mappings/store/actions.tsx:317-337 | tag DELETE_MAPPING_SUCCESS, a success notification, and the server name and mapping id |
| Actions.DeleteMappingError | src/modules/mappings/store/actions.tsx:348-371 | tag DELETE_MAPPING_ERROR, a danger notification, and the server name, mapping id and error message unchanged |
| Actions.DefaultMapping | src/modules/mappings/store/actions.tsx:390-403 | the blank mapping has id and uuid equal to the creation id, no name, a GET request with no URL, a 200 response, is not persistent, and has the empty folder |
| Actions.InitCreateMapping | src/modules/mappings/store/actions.tsx:382-405 | tag INIT_CREATE_MAPPING, the server name and creation id, and the blank mapping whose id and uuid are the creation id |
| Actions.CreateMappingRequest | src/modules/mappings/store/actions.tsx:416-427 | tag CREATE_MAPPING_REQUEST with the server name, creation id and mapping |
| Actions.CreateMappingSuccess | src/modules/mappings/store/actions.tsx:439-463 | tag CREATE_MAPPING_SUCCESS, a success notification, and both the server-assigned mapping id and the creation id unchanged |
| Actions.CreateMappingError | src/modules/mappings/store/actions.tsx:476-503 | tag CREATE_MAPPING_ERROR, a danger notification, and the mapping id, creation id, mapping and error message unchanged |
| Actions.CancelMappingCreation | src/modules/mappings/store/actions.tsx:513-522 | tag CANCEL_CREATE_MAPPING with the server name and creation id |
| Epics.FindServer | src/modules/mappings/store/epics.ts:65-67 | the lookup finds nothing iff no server has the name, and otherwise finds the first server with that name |
| Epics.Omit | src/modules/mappings/store/epics.ts:90 | the draft sent to the server is the mapping without `id` and `uuid`: putting them back gives the mapping again |
| Epics.ShouldLoadServerMappingsEpic | src/modules/mappings/store/epics.ts:31-45 | there is no call and at most one action. It emits exactly one `loadServerMappingsRequest(server)` iff the action is LOAD_SERVER_MAPPINGS and the server has no collection, or one neither loading nor loaded |
| Epics.LoadServerMappingsEpic | src/modules/mappings/store/epics.ts:47-59 | a load request calls `getMappings` for the server and emits one action: the success with the mappings, or the error with the message |
| Epics.FetchMappingsEpic | src/modules/mappings/store/epics.ts:61-79 | a fetch for an unknown server does nothing. Otherwise it calls `getMapping` and emits the success with the mapping, or the error with the request's server name, mapping id and message |
| Epics.CreateMappingEpic | src/modules/mappings/store/epics.ts:81-126 | an unknown server does nothing. Otherwise it sends the mapping without `id`/`uuid`. On success it emits four items: close `<server>.mapping.create.<creationId>`, the success with the response's id and the creation id, the uncalled `catchError` operator, and open the new mapping as current. A failure is not caught |
| Epics.UpdateMappingEpic | src/modules/mappings/store/epics.ts:128-151 | an unknown server does nothing. Otherwise it calls `updateMapping` and emits the success with the request's mapping id and the response, or the error with the request's mapping and the message |
| Epics.DeleteMappingEpic | src/modules/mappings/store/epics.ts:153-176 | an unknown server does nothing. Otherwise it calls `deleteMapping`; on success it closes the mapping in every pane, then reports the deletion, then emits the uncalled `catchError` operator. A failure is not caught |
| Coherence.CreationContentIsCreateNode | src/modules/mappings/store/epics.ts:92-95 | the content the create epic closes is the explorer's 'create mapping' node for the same server and creation id (src/modules/core/containers/ExplorerContainer.ts:44) |
| Coherence.CreateMappingNodeIdInjective | src/modules/core/containers/ExplorerContainer.ts:44 | different creation ids give a server different 'create mapping' node ids |
| Coherence.DefaultMappingHasNoFolder | src/modules/mappings/store/actions.tsx:390-403 | the blank mapping of `initCreateMapping` has no folder by `hasFolder` (src/modules/core/containers/ExplorerContainer.ts:135-141), so its leaf would sit straight under the mappings node |
| Coherence.NoCreateOrDeleteErrorDispatched | src/modules/mappings/store/epics.ts:91-173 | neither the create epic nor the delete epic ever emits a create or delete error action |

## Left out

- The HTTP API (`getMappings`, `getMapping`, `createMapping`, `updateMapping`,
  `deleteMapping`) is I/O. Each epic takes the result its call settles with as
  a parameter (`Ok(response)` or `Err(message)`).
- RxJS mechanics are not modelled: `ofType`, `mergeMap`/`flatMap`
  interleaving, the `state$` stream and `combineEpics`. Each epic is a function
  of one action and one state snapshot.
- In `createMappingEpic` and `deleteMappingEpic`, `catchError(...)` sits inside
  the `from([...])` list. It is emitted as a value and never applied, so those
  two epics never dispatch their error actions and a failed call escapes.
  - The model emits an opaque `OperatorValue` in that slot.
  - A failed call is `Fails(message)`.
- Notifications keep only their kind (danger or success). Their JSX content
  and `ttl` are rendering.
- `uuid()` is a parameter: one creation id per server, in order.
- `getMappingUrl` is a parameter: an uninterpreted function from mapping to URL.
- `panesCurrentContentsSelector(panes, 'default')` is an input: the sequence of
  current content ids.
- `connect` and `mapDispatchToProps` are Redux wiring and are not modelled.
- src/modules/mappings/components/builder/BuilderMetadata.tsx is a form
  component with no logic and is not part of this model.
- A mapping leaf enters the arena when it is pushed, not when its object is
  built. The source builds a mapping's leaf object (lines 103-113) before
  `addToFolder` creates the folder nodes for that mapping (line 92). The model
  appends the leaf after those folder nodes, so the leaf sits at a larger
  index. Nothing in the source observes when an object was built.
- Explorer.ExplorerTree.AddMappingNodes: requires that no folder segment equal
  the id of a mapping listed earlier (`ExplorerSpec.FoldersAvoidEarlierIds`).
  When one does, the folder search can stop at that mapping's leaf. The source
  then pushes onto a leaf's missing `children` array and throws a TypeError,
  which the model does not capture. The condition is sufficient, not
  necessary: a matching folder earlier in pre-order would still save the
  push.
- Explorer.ExplorerTree.AddToFolder: requires that no leaf at or after the
  mappings node be named after a segment (`FolderTree.NoLeafNamed`). This
  excludes the same TypeError.
- ExplorerSpec.EntryOf: store lookups are own-key membership of a map.
  `serversMappings[server.name]` (line 39) and `mappings.byId[mappingId]`
  (line 101) are plain object lookups, which also find names inherited from
  `Object.prototype`, such as `constructor` or `toString`. This is not
  modelled.
  - For a server with such a name and no own entry, the source pushes the
    'create mapping' node and then throws at line 100. The model gives that
    server no children.
  - A listed id with such a name and no own `byId` entry is skipped by the
    source. `ExplorerSpec.IdsKnown` excludes that input.
- Explorer.MapStateToProps: requires every listed mapping id to have a `byId`
  entry (`ExplorerSpec.IdsKnown`); the source throws otherwise.
- ExplorerSpec.AddMappingsPlacesLeaves: states where each leaf goes, and
  `ExplorerSpec.LeafIndices` states that there is exactly one leaf per loaded
  mapping. The exactly-once fact is stated for the mappings loop, not restated
  for the finished tree.
- The creators' payload typing (the `I...Action` interfaces) becomes the
  fields of the `MappingsAction` variants. `TypeOf` gives each variant's tag.
