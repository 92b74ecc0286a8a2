/** `mapStateToProps` of src/modules/core/containers/ExplorerContainer.ts as
    the code runs it: node objects are created and pushed onto `children`
    arrays one at a time. The node objects live in the arena `nodes` of an
    `ExplorerTree`; a method that pushes onto a children array reassigns
    `nodes`. Each method is proved to build what the functions of
    `ExplorerSpec` describe. */
module Explorer {
  import opened MappingTypes
  import opened FolderTree
  import opened ExplorerSpec

  class ExplorerTree {
    /** Every node object created so far; node 0 is the root */
    var nodes: seq<TreeNode>

    ghost predicate Valid()
      reads this
    {
      WellFormed(nodes) && |nodes| > 0 && nodes[0].children.Some?
    }

    /** The tree holding only the root, with an empty children array */
    constructor ()
      ensures Valid() && nodes == [RootNode()]
    {
      nodes := [RootNode()];
    }

    /** A new node object, not yet in any children array */
    method NewNode(n: TreeNode) returns (idx: nat)
      modifies this
      ensures nodes == old(nodes) + [n] && idx == |old(nodes)|
    {
      idx := |nodes|;
      nodes := nodes + [n];
    }

    /** `parent.children.push(child)` */
    method PushChild(parent: nat, child: nat)
      requires parent < |nodes| && nodes[parent].children.Some?
      modifies this
      ensures nodes == WithChild(old(nodes), parent, child)
    {
      nodes := nodes[parent := nodes[parent].(children := Some(nodes[parent].children.value + [child]))];
    }

    /** `createFolderNode`: a folder node named after `folderName`, pushed as
        the last child of `currentNode` */
    method CreateFolderNode(currentNode: nat, serverName: string, folderName: string) returns (folder: nat)
      requires WellFormed(nodes) && currentNode < |nodes| && nodes[currentNode].children.Some?
      modifies this
      ensures nodes == PushNewChild(old(nodes), currentNode, FolderNode(serverName, folderName))
      ensures folder == |old(nodes)| && nodes[folder].id == folderName
    {
      folder := NewNode(FolderNode(serverName, folderName));
      PushChild(currentNode, folder);
    }

    /** One step of `addToFolder`: the first node named `folderName` below
        `currentNode`, or else a new folder node pushed under it */
    method ResolveNextSegment(currentNode: nat, serverName: string, folderName: string) returns (next: nat)
      requires WellFormed(nodes) && currentNode < |nodes| && nodes[currentNode].children.Some?
      modifies this
      ensures (nodes, next) == ResolveSegment(old(nodes), currentNode, serverName, folderName)
    {
      var folderNode := FindFolderNode(nodes, currentNode, folderName);
      if folderNode.None? {
        next := CreateFolderNode(currentNode, serverName, folderName);
      } else {
        next := folderNode.value;
      }
    }

    /** `addToFolder`: each segment of `folder` is searched for below the
        node the previous one led to, starting at the mappings node, and
        created there when missing; the mapping node is pushed under the node
        of the last segment */
    method AddToFolder(mappingsNode: nat, serverName: string, folder: string, mappingNode: TreeNode)
      requires WellFormed(nodes) && mappingsNode < |nodes| && nodes[mappingsNode].children.Some?
      requires ChildrenOf(mappingNode) == [] && NoLeafNamed(nodes, mappingsNode, Split(folder, '/'))
      modifies this
      ensures nodes == PlaceInFolder(old(nodes), mappingsNode, serverName, Split(folder, '/'), mappingNode)
    {
      var segs := Split(folder, '/');
      var currentNode := mappingsNode;
      for index := 0 to |segs|
        invariant index < |segs| ==> NoLeafNamed(old(nodes), mappingsNode, segs[..index])
        invariant index < |segs| ==> (nodes, currentNode) == ResolvePath(old(nodes), mappingsNode, serverName, segs[..index])
        invariant index == |segs| ==> nodes == PlaceInFolder(old(nodes), mappingsNode, serverName, segs, mappingNode)
      {
        ResolvePathStep(old(nodes), mappingsNode, serverName, segs, index);
        currentNode := ResolveNextSegment(currentNode, serverName, segs[index]);
        if index == |segs| - 1 {
          assert segs[..index + 1] == segs;
          ghost var resolved := nodes;
          var leaf := NewNode(mappingNode);
          PushChild(currentNode, leaf);
          assert nodes == PushNewChild(resolved, currentNode, mappingNode);
        }
      }
    }

    /** The loop over `mappings.ids`: the node of every loaded mapping goes
        into its folder when it has one, else straight under the mappings
        node, the last node created so far */
    method AddMappingNodes(mappingsNode: nat, serverName: string, ms: ServerMappings, currentContentIds: seq<string>,
                           url: Mapping -> string)
      requires WellFormed(nodes) && mappingsNode == |nodes| - 1 && nodes[mappingsNode].children.Some?
      requires Placeable(ms)
      modifies this
      ensures nodes == AddMappings(old(nodes), serverName, ms, |ms.ids|, currentContentIds, url)
    {
      for k := 0 to |ms.ids|
        invariant nodes == AddMappings(old(nodes), serverName, ms, k, currentContentIds, url)
      {
        var mappingId := ms.ids[k];
        var mapping := ms.byId[mappingId].mapping;
        if mapping.Some? {
          var m := mapping.value;
          var mappingNode := MappingNode(serverName, mappingId, m, mappingId in currentContentIds, url(m));
          assert mappingNode == LeafOf(serverName, ms, k, currentContentIds, url);
          EarlierLeavesAvoidFolder(old(nodes), nodes, ms, k);
          if HasFolder(m) {
            AddToFolder(mappingsNode, serverName, FolderOf(m), mappingNode);
          } else {
            var leaf := NewNode(mappingNode);
            PushChild(mappingsNode, leaf);
          }
        }
      }
    }

    /** The body of `servers.forEach`: the server node; when the store has the
        server's mappings, its 'create mapping' node and its mappings node
        holding the mappings; then the server node pushed under the root */
    method AddServerNode(server: Server, serversMappings: map<string, ServerMappings>, creationId: string,
                         currentContentIds: seq<string>, url: Mapping -> string)
      requires Valid()
      requires server.name in serversMappings ==> Placeable(serversMappings[server.name])
      modifies this
      ensures nodes == AddServer(old(nodes), server.name, EntryOf(serversMappings, server.name), creationId,
                                 currentContentIds, url)
      ensures Valid()
    {
      var serverNode := NewNode(ServerNode(server.name));
      ghost var withServer := nodes;
      AppendNodeExtends(old(nodes), ServerNode(server.name));
      if server.name in serversMappings {
        var mappings := serversMappings[server.name];
        var createNode := NewNode(CreateMappingNode(server.name, creationId));
        PushChild(serverNode, createNode);
        var mappingsNode := NewNode(MappingsNode(server.name));
        assert nodes == ServerFrame(withServer, server.name, creationId);
        AddMappingNodes(mappingsNode, server.name, mappings, currentContentIds, url);
        PushChild(serverNode, mappingsNode);
      }
      assert nodes == ServerChildren(withServer, server.name, EntryOf(serversMappings, server.name), creationId,
                                     currentContentIds, url);
      PushChild(0, serverNode);
    }

    /** `servers.forEach`: the subtree of every server, in order */
    method AddServerNodes(servers: seq<Server>, serversMappings: map<string, ServerMappings>, creationIds: seq<string>,
                          currentContentIds: seq<string>, url: Mapping -> string)
      requires nodes == [RootNode()]
      requires |creationIds| == |servers| && AllPlaceable(servers, serversMappings)
      modifies this
      ensures Valid()
      ensures nodes == BuildServers(servers, serversMappings, creationIds, currentContentIds, url, |servers|)
    {
      for k := 0 to |servers|
        invariant Valid()
        invariant nodes == BuildServers(servers, serversMappings, creationIds, currentContentIds, url, k)
      {
        AddServerNode(servers[k], serversMappings, creationIds[k], currentContentIds, url);
        BuildServersUnfold(servers, serversMappings, creationIds, currentContentIds, url, k + 1);
      }
    }
  }

  /** `mapStateToProps`: the explorer tree of the servers, and the servers.
      `currentContentIds` are the ids of the contents shown in the default
      pane; `creationIds` holds the `uuid()` drawn for each server, in order;
      `url` stands for `getMappingUrl`. */
  method MapStateToProps(servers: seq<Server>, serversMappings: map<string, ServerMappings>, currentContentIds: seq<string>,
                         creationIds: seq<string>, url: Mapping -> string)
    returns (tree: seq<TreeNode>, serversOut: seq<Server>)
    requires |creationIds| == |servers| && AllPlaceable(servers, serversMappings)
    ensures tree == BuildTree(servers, serversMappings, creationIds, currentContentIds, url)
    ensures serversOut == servers
  {
    var t := new ExplorerTree();
    t.AddServerNodes(servers, serversMappings, creationIds, currentContentIds, url);
    var createServer := t.NewNode(ServerCreateNode());
    t.PushChild(0, createServer);
    tree := t.nodes;
    serversOut := servers;
  }
}
