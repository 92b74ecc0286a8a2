/** How the action creators, the epics and the explorer tree fit together:
    the creation form opened by `initCreateMapping` and closed by the create
    epic is the one the explorer's 'create mapping' node points at, and the
    blank mapping would sit straight under the mappings node. */
module Coherence {
  import opened MappingTypes
  import opened FolderTree
  import opened Actions
  import opened Epics
  import opened ExplorerSpec

  /** The content the create epic closes is the explorer's 'create mapping'
      node of the same server and creation id */
  lemma CreationContentIsCreateNode(serverName: string, creationId: string)
    ensures CreationContentId(serverName, creationId) == CreateMappingNode(serverName, creationId).id
  {
  }

  /** Different creation ids give a server different 'create mapping' nodes,
      so closing one creation form leaves the others open */
  lemma CreateMappingNodeIdInjective(serverName: string, c1: string, c2: string)
    requires CreateMappingNodeId(serverName, c1) == CreateMappingNodeId(serverName, c2)
    ensures c1 == c2
  {
    var prefix := serverName + ".mapping.create.";
    assert CreateMappingNodeId(serverName, c1) == prefix + c1;
    assert CreateMappingNodeId(serverName, c2) == prefix + c2;
    assert (prefix + c1)[|prefix|..] == c1;
    assert (prefix + c2)[|prefix|..] == c2;
  }

  /** The blank mapping of `initCreateMapping` has no folder: were it listed,
      its leaf would hang straight under the mappings node */
  lemma DefaultMappingHasNoFolder(serverName: string, creationId: string)
    ensures !HasFolder(InitCreateMapping(serverName, creationId).mapping)
  {
  }

  /** No epic reaction ever dispatches a create or delete error: those
      failures escape the epics uncaught */
  lemma NoCreateOrDeleteErrorDispatched(state: AppState, action: MappingsAction,
                                        created: ApiResult<Mapping>, deleted: ApiResult<()>)
    ensures var r := CreateMappingEpic(state, action, created);
      r.outcome.Emits? ==> forall i | 0 <= i < |r.outcome.items| ::
        !(r.outcome.items[i].Dispatch? && r.outcome.items[i].action.CreateMappingErrorAction?)
    ensures var r := DeleteMappingEpic(state, action, deleted);
      r.outcome.Emits? ==> forall i | 0 <= i < |r.outcome.items| ::
        !(r.outcome.items[i].Dispatch? && r.outcome.items[i].action.DeleteMappingErrorAction?)
  {
  }
}
