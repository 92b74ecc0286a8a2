/** The explorer tree as an arena, and the folder search and resolution of
    src/modules/core/containers/ExplorerContainer.ts.

    The tree's nodes live in a sequence; a node's `children` holds the indices
    of its children in order, and `None` stands for a node without a
    `children` array (a mapping leaf, the create-server node). A child always
    sits at a larger index than its parent. */
module FolderTree {
  import opened MappingTypes

  /** The `type` of a tree node: 'root', 'server', 'mappings', 'mapping',
      'mapping.create' and 'server.create' */
  datatype NodeType = TypeRoot | TypeServer | TypeMappings | TypeMapping | TypeMappingCreate | TypeServerCreate

  /** The `data` of a tree node */
  datatype NodeData =
    | NoData
    | ServerData(serverName: string)
    | CreationData(serverName: string, creationId: string)
    | MappingData(serverName: string, mappingId: string, name: Option<string>)

  datatype TreeNode = TreeNode(
    id: string,
    nodeType: NodeType,
    nodeLabel: string,
    data: NodeData,
    isCurrent: Option<bool>,
    children: Option<seq<nat>>
  )

  function ChildrenOf(n: TreeNode): seq<nat>
  {
    if n.children.Some? then n.children.value else []
  }

  /** The index of the `k`-th child of node `i` */
  function ChildAt(nodes: seq<TreeNode>, i: nat, k: nat): nat
    requires i < |nodes| && k < |ChildrenOf(nodes[i])|
  {
    ChildrenOf(nodes[i])[k]
  }

  /** Every child index lies past its parent's index and inside the arena */
  ghost predicate WellFormed(nodes: seq<TreeNode>)
  {
    forall i, k | 0 <= i < |nodes| && 0 <= k < |ChildrenOf(nodes[i])| ::
      i < ChildAt(nodes, i, k) < |nodes|
  }

  /** The folder node `createFolderNode` makes for one path segment */
  function FolderNode(serverName: string, folderName: string): (n: TreeNode)
    ensures n.id == folderName && n.nodeType == TypeMappings && n.nodeLabel == folderName
    ensures n.data == ServerData(serverName) && n.isCurrent.None? && n.children == Some([])
  {
    TreeNode(folderName, TypeMappings, folderName, ServerData(serverName), None, Some([]))
  }

  /** `p.children.push(c)` */
  function WithChild(nodes: seq<TreeNode>, p: nat, c: nat): seq<TreeNode>
    requires p < |nodes| && nodes[p].children.Some?
  {
    nodes[p := nodes[p].(children := Some(nodes[p].children.value + [c]))]
  }

  /** `after` is `before` with nodes appended at the end and children appended
      to existing children lists: no node or child is removed or reordered, and
      no other field changes */
  ghost predicate Extends(before: seq<TreeNode>, after: seq<TreeNode>)
  {
    && |before| <= |after|
    && forall i | 0 <= i < |before| ::
      && after[i].(children := before[i].children) == before[i]
      && after[i].children.Some? == before[i].children.Some?
      && |ChildrenOf(before[i])| <= |ChildrenOf(after[i])|
      && forall k | 0 <= k < |ChildrenOf(before[i])| :: ChildAt(after, i, k) == ChildAt(before, i, k)
  }

  /** The children `before` gives node `i` are the first ones `after` gives it */
  lemma ExtendsChildren(before: seq<TreeNode>, after: seq<TreeNode>, i: nat)
    requires Extends(before, after) && i < |before|
    ensures ChildrenOf(before[i]) == ChildrenOf(after[i])[..|ChildrenOf(before[i])|]
  {
    var cs := ChildrenOf(before[i]);
    forall k | 0 <= k < |cs|
      ensures cs[k] == ChildrenOf(after[i])[k]
    {
      assert ChildAt(after, i, k) == ChildAt(before, i, k);
    }
  }

  lemma ExtendsTransitive(a: seq<TreeNode>, b: seq<TreeNode>, c: seq<TreeNode>)
    requires Extends(a, b) && Extends(b, c)
    ensures Extends(a, c)
  {
    forall i, k | 0 <= i < |a| && 0 <= k < |ChildrenOf(a[i])|
      ensures ChildAt(c, i, k) == ChildAt(a, i, k)
    {
      assert ChildAt(c, i, k) == ChildAt(b, i, k) == ChildAt(a, i, k);
    }
  }

  /** Appending a childless node, or a fresh child index, keeps the arena
      well formed and extends it */
  lemma WithChildExtends(nodes: seq<TreeNode>, p: nat, c: nat)
    requires WellFormed(nodes) && p < c < |nodes| && nodes[p].children.Some?
    ensures WellFormed(WithChild(nodes, p, c)) && Extends(nodes, WithChild(nodes, p, c))
  {
    var after := WithChild(nodes, p, c);
    assert ChildrenOf(after[p]) == ChildrenOf(nodes[p]) + [c];
    forall i, k | 0 <= i < |after| && 0 <= k < |ChildrenOf(after[i])|
      ensures i < ChildAt(after, i, k) < |after|
    {
      if i == p && k == |ChildrenOf(nodes[p])| {
      } else {
        assert ChildAt(after, i, k) == ChildAt(nodes, i, k);
      }
    }
    forall i, k | 0 <= i < |nodes| && 0 <= k < |ChildrenOf(nodes[i])|
      ensures ChildAt(after, i, k) == ChildAt(nodes, i, k)
    {
    }
  }

  lemma AppendNodeExtends(nodes: seq<TreeNode>, n: TreeNode)
    requires WellFormed(nodes) && ChildrenOf(n) == []
    ensures WellFormed(nodes + [n]) && Extends(nodes, nodes + [n])
  {
    var after := nodes + [n];
    forall i, k | 0 <= i < |after| && 0 <= k < |ChildrenOf(after[i])|
      ensures i < ChildAt(after, i, k) < |after|
    {
      assert i < |nodes|;
      assert ChildAt(after, i, k) == ChildAt(nodes, i, k);
    }
  }

  // --------------------------------------------------------- pre-order walk

  /** The nodes of the subtree under `a`, in pre-order (node first, then the
      subtrees of its children from first to last) */
  ghost function PreOrder(nodes: seq<TreeNode>, a: nat): (r: seq<nat>)
    requires WellFormed(nodes) && a < |nodes|
    ensures |r| >= 1 && r[0] == a
    ensures forall k | 0 <= k < |r| :: a <= r[k] < |nodes|
    decreases |nodes| - a, 1
  {
    [a] + PreOrderList(nodes, a, |ChildrenOf(nodes[a])|)
  }

  /** The pre-order walks of the subtrees under the first `n` children of
      `p`, one after another */
  ghost function PreOrderList(nodes: seq<TreeNode>, p: nat, n: nat): (r: seq<nat>)
    requires WellFormed(nodes) && p < |nodes| && n <= |ChildrenOf(nodes[p])|
    ensures forall k | 0 <= k < |r| :: p < r[k] < |nodes|
    decreases |nodes| - p, 0, n
  {
    if n == 0 then [] else PreOrderList(nodes, p, n - 1) + PreOrder(nodes, ChildAt(nodes, p, n - 1))
  }

  lemma {:induction false} PreOrderListMember(nodes: seq<TreeNode>, p: nat, n: nat, x: nat)
    requires WellFormed(nodes) && p < |nodes| && n <= |ChildrenOf(nodes[p])|
    ensures x in PreOrderList(nodes, p, n) <==> exists k | 0 <= k < n :: x in PreOrder(nodes, ChildAt(nodes, p, k))
    decreases n
  {
    if n != 0 {
      PreOrderListMember(nodes, p, n - 1, x);
    }
  }

  /** A node of a child's subtree is a node of the parent's subtree */
  lemma ChildSubtree(nodes: seq<TreeNode>, a: nat, k: nat, x: nat)
    requires WellFormed(nodes) && a < |nodes| && k < |ChildrenOf(nodes[a])|
    requires x in PreOrder(nodes, ChildAt(nodes, a, k))
    ensures x in PreOrder(nodes, a)
  {
    PreOrderListMember(nodes, a, |ChildrenOf(nodes[a])|, x);
  }

  /** Being in a subtree is transitive */
  lemma {:induction false} SubtreeTransitive(nodes: seq<TreeNode>, a: nat, c: nat, x: nat)
    requires WellFormed(nodes) && a < |nodes|
    requires c in PreOrder(nodes, a)
    requires x in PreOrder(nodes, c)
    ensures x in PreOrder(nodes, a)
    decreases |nodes| - a
  {
    if c != a {
      PreOrderListMember(nodes, a, |ChildrenOf(nodes[a])|, c);
      var k :| 0 <= k < |ChildrenOf(nodes[a])| && c in PreOrder(nodes, ChildAt(nodes, a, k));
      SubtreeTransitive(nodes, ChildAt(nodes, a, k), c, x);
      ChildSubtree(nodes, a, k, x);
    }
  }

  /** Growing the arena never takes a node out of a subtree */
  lemma {:induction false} SubtreeGrows(before: seq<TreeNode>, after: seq<TreeNode>, a: nat, x: nat)
    requires WellFormed(before) && WellFormed(after) && Extends(before, after) && a < |before|
    requires x in PreOrder(before, a)
    ensures x in PreOrder(after, a)
    decreases |before| - a
  {
    if x != a {
      PreOrderListMember(before, a, |ChildrenOf(before[a])|, x);
      var k :| 0 <= k < |ChildrenOf(before[a])| && x in PreOrder(before, ChildAt(before, a, k));
      assert ChildAt(after, a, k) == ChildAt(before, a, k);
      SubtreeGrows(before, after, ChildAt(before, a, k), x);
      ChildSubtree(after, a, k, x);
    }
  }

  // ------------------------------------------------------------ folder search

  /** The first node of `order` whose id is `name` */
  function FirstWithId(nodes: seq<TreeNode>, order: seq<nat>, name: string): Option<nat>
    requires forall k | 0 <= k < |order| :: order[k] < |nodes|
  {
    if order == [] then None
    else
      var front := order[..|order| - 1];
      var last := order[|order| - 1];
      assert forall k | 0 <= k < |front| :: front[k] == order[k];
      var r := FirstWithId(nodes, front, name);
      if r.Some? then r
      else if nodes[last].id == name then Some(last)
      else None
  }

  /** The search finds nothing exactly when no node of `order` has the id,
      and otherwise finds the earliest one that has it */
  lemma {:induction false} FirstWithIdMeaning(nodes: seq<TreeNode>, order: seq<nat>, name: string)
    requires forall k | 0 <= k < |order| :: order[k] < |nodes|
    ensures var r := FirstWithId(nodes, order, name);
      && (r.None? <==> forall k | 0 <= k < |order| :: nodes[order[k]].id != name)
      && (r.Some? ==> exists k | 0 <= k < |order| ::
            order[k] == r.value && nodes[r.value].id == name && forall j | 0 <= j < k :: nodes[order[j]].id != name)
    decreases |order|
  {
    if order != [] {
      var front := order[..|order| - 1];
      assert forall k | 0 <= k < |front| :: front[k] == order[k];
      FirstWithIdMeaning(nodes, front, name);
      var r := FirstWithId(nodes, front, name);
      if r.Some? {
        var k :| 0 <= k < |front| && front[k] == r.value && nodes[r.value].id == name &&
          forall j | 0 <= j < k :: nodes[front[j]].id != name;
        assert order[k] == r.value;
      } else if nodes[order[|order| - 1]].id == name {
        assert forall j | 0 <= j < |order| - 1 :: nodes[front[j]].id != name;
      }
    }
  }

  /** Searching two orders one after the other: the first decides when it
      finds something */
  lemma {:induction false} FirstWithIdAppend(nodes: seq<TreeNode>, a: seq<nat>, b: seq<nat>, name: string)
    requires forall k | 0 <= k < |a| :: a[k] < |nodes|
    requires forall k | 0 <= k < |b| :: b[k] < |nodes|
    ensures FirstWithId(nodes, a + b, name) ==
      if FirstWithId(nodes, a, name).Some? then FirstWithId(nodes, a, name) else FirstWithId(nodes, b, name)
    decreases |b|
  {
    if b == [] {
      assert a + b == a;
    } else {
      var ab := a + b;
      assert ab[|ab| - 1] == b[|b| - 1] && ab[..|ab| - 1] == a + b[..|b| - 1];
      FirstWithIdAppend(nodes, a, b[..|b| - 1], name);
    }
  }

  /** What `findFolderNode` returns: `cur` itself when its id is `name`,
      else the first node found among its children's subtrees */
  ghost function Find(nodes: seq<TreeNode>, cur: nat, name: string): (r: Option<nat>)
    requires WellFormed(nodes) && cur < |nodes|
    ensures r.Some? ==> cur <= r.value < |nodes| && nodes[r.value].id == name
    decreases |nodes| - cur, 1
  {
    if nodes[cur].id == name then Some(cur) else FindAmong(nodes, cur, |ChildrenOf(nodes[cur])|, name)
  }

  /** The search of the subtrees of the first `n` children of `cur`, child
      by child, up to the first that yields a node */
  ghost function FindAmong(nodes: seq<TreeNode>, cur: nat, n: nat, name: string): (r: Option<nat>)
    requires WellFormed(nodes) && cur < |nodes| && n <= |ChildrenOf(nodes[cur])|
    ensures r.Some? ==> cur < r.value < |nodes| && nodes[r.value].id == name
    decreases |nodes| - cur, 0, n
  {
    if n == 0 then None
    else
      var earlier := FindAmong(nodes, cur, n - 1, name);
      if earlier.Some? then earlier else Find(nodes, ChildAt(nodes, cur, n - 1), name)
  }

  /** Once the first `k` children yield a node, searching more children
      yields the same node */
  lemma {:induction false} FindAmongStays(nodes: seq<TreeNode>, cur: nat, k: nat, m: nat, name: string)
    requires WellFormed(nodes) && cur < |nodes| && k <= m <= |ChildrenOf(nodes[cur])|
    requires FindAmong(nodes, cur, k, name).Some?
    ensures FindAmong(nodes, cur, m, name) == FindAmong(nodes, cur, k, name)
    decreases m
  {
    if m > k {
      FindAmongStays(nodes, cur, k, m - 1, name);
    }
  }

  /** The node the search finds lies in the subtree under `cur` */
  lemma {:induction false} FindInSubtree(nodes: seq<TreeNode>, cur: nat, name: string)
    requires WellFormed(nodes) && cur < |nodes| && Find(nodes, cur, name).Some?
    ensures Find(nodes, cur, name).value in PreOrder(nodes, cur)
    decreases |nodes| - cur, 1
  {
    if nodes[cur].id != name {
      FindAmongInSubtree(nodes, cur, |ChildrenOf(nodes[cur])|, name);
    }
  }

  lemma {:induction false} FindAmongInSubtree(nodes: seq<TreeNode>, cur: nat, n: nat, name: string)
    requires WellFormed(nodes) && cur < |nodes| && n <= |ChildrenOf(nodes[cur])|
    requires FindAmong(nodes, cur, n, name).Some?
    ensures FindAmong(nodes, cur, n, name).value in PreOrder(nodes, cur)
    decreases |nodes| - cur, 0, n
  {
    var x := FindAmong(nodes, cur, n, name).value;
    if FindAmong(nodes, cur, n - 1, name).Some? {
      FindAmongInSubtree(nodes, cur, n - 1, name);
    } else {
      var c := ChildAt(nodes, cur, n - 1);
      FindInSubtree(nodes, c, name);
      ChildSubtree(nodes, cur, n - 1, x);
    }
  }

  /** The search is a pre-order search: it finds the first node of the
      subtree under `cur`, in pre-order, whose id is `name` */
  lemma {:induction false} FindIsFirstInPreOrder(nodes: seq<TreeNode>, cur: nat, name: string)
    requires WellFormed(nodes) && cur < |nodes|
    ensures Find(nodes, cur, name) == FirstWithId(nodes, PreOrder(nodes, cur), name)
    decreases |nodes| - cur, 1
  {
    var rest := PreOrderList(nodes, cur, |ChildrenOf(nodes[cur])|);
    assert [cur][..0] == [];
    FirstWithIdAppend(nodes, [cur], rest, name);
    FindAmongIsFirst(nodes, cur, |ChildrenOf(nodes[cur])|, name);
  }

  lemma {:induction false} FindAmongIsFirst(nodes: seq<TreeNode>, cur: nat, n: nat, name: string)
    requires WellFormed(nodes) && cur < |nodes| && n <= |ChildrenOf(nodes[cur])|
    ensures FindAmong(nodes, cur, n, name) == FirstWithId(nodes, PreOrderList(nodes, cur, n), name)
    decreases |nodes| - cur, 0, n
  {
    if n > 0 {
      var c := ChildAt(nodes, cur, n - 1);
      FindAmongIsFirst(nodes, cur, n - 1, name);
      FindIsFirstInPreOrder(nodes, c, name);
      FirstWithIdAppend(nodes, PreOrderList(nodes, cur, n - 1), PreOrder(nodes, c), name);
    }
  }

  /** `findFolderNode`: search the subtree under `currentNode`, node first and
      then each child's subtree in order, for a node whose id is `folderName` */
  method FindFolderNode(nodes: seq<TreeNode>, currentNode: nat, folderName: string) returns (r: Option<nat>)
    requires WellFormed(nodes) && currentNode < |nodes|
    ensures r == Find(nodes, currentNode, folderName)
    decreases |nodes| - currentNode
  {
    if nodes[currentNode].id == folderName {
      return Some(currentNode);
    }
    if nodes[currentNode].children.None? {
      return None;
    }
    var children := nodes[currentNode].children.value;
    for k := 0 to |children|
      invariant FindAmong(nodes, currentNode, k, folderName).None?
    {
      assert children[k] == ChildAt(nodes, currentNode, k);
      var res := FindFolderNode(nodes, children[k], folderName);
      if res.Some? {
        FindAmongStays(nodes, currentNode, k + 1, |children|, folderName);
        return res;
      }
    }
    return None;
  }

  // -------------------------------------------------------- folder resolution

  /** No childless node at or after `start` has one of `names` as its id. A
      search from `start` for one of `names` then never stops at a mapping
      leaf, whose missing `children` array the code would dereference. */
  ghost predicate NoLeafNamed(nodes: seq<TreeNode>, start: nat, names: seq<string>)
  {
    forall x | start <= x < |nodes| && nodes[x].children.None? :: nodes[x].id !in names
  }

  /** Every node of `after` past the end of `before` is a folder node of
      `serverName` named after one of `names` */
  ghost predicate NewNodesAreFolders(before: seq<TreeNode>, after: seq<TreeNode>, serverName: string, names: seq<string>)
  {
    forall x | |before| <= x < |after| ::
      after[x].children.Some? && after[x].id in names &&
      after[x].(children := Some([])) == FolderNode(serverName, after[x].id)
  }

  /** Resolving one segment from `cur`: the first node of the subtree under
      `cur`, in pre-order, whose id is the segment; when there is none, a new
      folder node named after the segment, appended as the last child of `cur` */
  ghost function ResolveSegment(nodes: seq<TreeNode>, cur: nat, serverName: string, seg: string): (res: (seq<TreeNode>, nat))
    requires WellFormed(nodes) && cur < |nodes| && nodes[cur].children.Some?
    ensures WellFormed(res.0) && Extends(nodes, res.0) && |res.0| <= |nodes| + 1
    ensures cur <= res.1 < |res.0| && res.0[res.1].id == seg
    ensures NewNodesAreFolders(nodes, res.0, serverName, [seg])
    ensures forall i | 0 <= i < cur :: res.0[i] == nodes[i]
  {
    match Find(nodes, cur, seg)
    case Some(n) => (nodes, n)
    case None =>
      var folder := FolderNode(serverName, seg);
      AppendNodeExtends(nodes, folder);
      WithChildExtends(nodes + [folder], cur, |nodes|);
      ExtendsTransitive(nodes, nodes + [folder], WithChild(nodes + [folder], cur, |nodes|));
      (WithChild(nodes + [folder], cur, |nodes|), |nodes|)
  }

  /** Resolving the segments of a folder path one after another, each from the
      node the previous one resolved to; the first from `start` */
  ghost function ResolvePath(nodes: seq<TreeNode>, start: nat, serverName: string, segs: seq<string>): (res: (seq<TreeNode>, nat))
    requires WellFormed(nodes) && start < |nodes| && nodes[start].children.Some?
    requires NoLeafNamed(nodes, start, segs)
    ensures WellFormed(res.0) && Extends(nodes, res.0)
    ensures start <= res.1 < |res.0| && res.0[res.1].children.Some?
    ensures segs != [] ==> res.0[res.1].id == segs[|segs| - 1]
    ensures NewNodesAreFolders(nodes, res.0, serverName, segs)
    ensures forall i | 0 <= i < start :: res.0[i] == nodes[i]
    decreases |segs|
  {
    if segs == [] then (nodes, start)
    else
      var prefix := segs[..|segs| - 1];
      var seg := segs[|segs| - 1];
      assert forall e <- prefix :: e in segs;
      var (ns, cur) := ResolvePath(nodes, start, serverName, prefix);
      var res := ResolveSegment(ns, cur, serverName, seg);
      ExtendsTransitive(nodes, ns, res.0);
      ResolvedHasChildren(nodes, ns, res.0, start, serverName, segs, res.1);
      res
  }

  /** Resolving one more segment of a path resolves the next segment from
      where the shorter path led */
  lemma ResolvePathStep(nodes: seq<TreeNode>, start: nat, serverName: string, segs: seq<string>, index: nat)
    requires WellFormed(nodes) && start < |nodes| && nodes[start].children.Some?
    requires index < |segs| && NoLeafNamed(nodes, start, segs)
    ensures NoLeafNamed(nodes, start, segs[..index]) && NoLeafNamed(nodes, start, segs[..index + 1])
    ensures var prev := ResolvePath(nodes, start, serverName, segs[..index]);
      ResolvePath(nodes, start, serverName, segs[..index + 1]) == ResolveSegment(prev.0, prev.1, serverName, segs[index])
  {
    assert segs[..index + 1][..index] == segs[..index];
    assert forall e <- segs[..index + 1] :: e in segs;
  }

  lemma ResolvedHasChildren(nodes: seq<TreeNode>, ns: seq<TreeNode>, after: seq<TreeNode>, start: nat,
                            serverName: string, segs: seq<string>, n: nat)
    requires segs != []
    requires Extends(nodes, ns) && Extends(ns, after) && start <= n < |after|
    requires NoLeafNamed(nodes, start, segs)
    requires NewNodesAreFolders(nodes, ns, serverName, segs[..|segs| - 1])
    requires NewNodesAreFolders(ns, after, serverName, [segs[|segs| - 1]])
    requires after[n].id == segs[|segs| - 1]
    ensures after[n].children.Some?
    ensures NewNodesAreFolders(nodes, after, serverName, segs)
  {
    forall x | |nodes| <= x < |after|
      ensures after[x].children.Some? && after[x].id in segs
      ensures after[x].(children := Some([])) == FolderNode(serverName, after[x].id)
    {
      if x < |ns| {
        assert ns[x].id in segs[..|segs| - 1];
      }
    }
  }

  /** Resolving a segment from a node of that name stays on that node */
  lemma ResolveSegmentAtNamedNode(nodes: seq<TreeNode>, cur: nat, serverName: string, seg: string)
    requires WellFormed(nodes) && cur < |nodes| && nodes[cur].children.Some? && nodes[cur].id == seg
    ensures ResolveSegment(nodes, cur, serverName, seg) == (nodes, cur)
  {
  }

  /** A segment repeated right after itself resolves to the node it resolved
      to the first time: the path `x/x` lands where `x` does */
  lemma RepeatedSegmentResolvesOnce(nodes: seq<TreeNode>, start: nat, serverName: string, path: seq<string>, seg: string)
    requires WellFormed(nodes) && start < |nodes| && nodes[start].children.Some?
    requires NoLeafNamed(nodes, start, path + [seg])
    ensures NoLeafNamed(nodes, start, path + [seg, seg])
    ensures ResolvePath(nodes, start, serverName, path + [seg, seg]) == ResolvePath(nodes, start, serverName, path + [seg])
  {
    var once := path + [seg];
    var twice := path + [seg, seg];
    assert forall e <- twice :: e in once;
    assert twice[..|twice| - 1] == once;
    var (ns, n) := ResolvePath(nodes, start, serverName, once);
    ResolveSegmentAtNamedNode(ns, n, serverName, seg);
  }

  /** The node a segment resolves to lies in the subtree under `cur` */
  lemma ResolveSegmentInSubtree(nodes: seq<TreeNode>, cur: nat, serverName: string, seg: string)
    requires WellFormed(nodes) && cur < |nodes| && nodes[cur].children.Some?
    ensures var (after, n) := ResolveSegment(nodes, cur, serverName, seg);
      n in PreOrder(after, cur)
  {
    var (after, n) := ResolveSegment(nodes, cur, serverName, seg);
    if Find(nodes, cur, seg).None? {
      var cs := ChildrenOf(after[cur]);
      assert ChildAt(after, cur, |cs| - 1) == n;
      ChildSubtree(after, cur, |cs| - 1, n);
    } else {
      FindInSubtree(nodes, cur, seg);
    }
  }

  /** The node a folder path resolves to lies in the subtree under `start` */
  lemma {:induction false} ResolvePathInSubtree(nodes: seq<TreeNode>, start: nat, serverName: string, segs: seq<string>)
    requires WellFormed(nodes) && start < |nodes| && nodes[start].children.Some?
    requires NoLeafNamed(nodes, start, segs)
    ensures var (after, n) := ResolvePath(nodes, start, serverName, segs);
      n in PreOrder(after, start)
    decreases |segs|
  {
    if segs != [] {
      var prefix := segs[..|segs| - 1];
      assert forall e <- prefix :: e in segs;
      ResolvePathInSubtree(nodes, start, serverName, prefix);
      var (ns, cur) := ResolvePath(nodes, start, serverName, prefix);
      var (after, n) := ResolveSegment(ns, cur, serverName, segs[|segs| - 1]);
      ResolveSegmentInSubtree(ns, cur, serverName, segs[|segs| - 1]);
      SubtreeGrows(ns, after, start, cur);
      SubtreeTransitive(after, start, cur, n);
    }
  }

  /** A new node appended to the arena and pushed as the last child of `p` */
  function PushNewChild(nodes: seq<TreeNode>, p: nat, leaf: TreeNode): seq<TreeNode>
    requires p < |nodes| && nodes[p].children.Some?
  {
    WithChild(nodes + [leaf], p, |nodes|)
  }

  /** `PushNewChild` keeps the arena well formed, only extends it and changes
      no node but `p` */
  lemma PushNewChildExtends(nodes: seq<TreeNode>, p: nat, leaf: TreeNode)
    requires WellFormed(nodes) && p < |nodes| && nodes[p].children.Some? && ChildrenOf(leaf) == []
    ensures var after := PushNewChild(nodes, p, leaf);
      && WellFormed(after) && Extends(nodes, after)
      && |after| == |nodes| + 1 && after[|nodes|] == leaf
      && forall i | 0 <= i < |nodes| && i != p :: after[i] == nodes[i]
  {
    AppendNodeExtends(nodes, leaf);
    WithChildExtends(nodes + [leaf], p, |nodes|);
    ExtendsTransitive(nodes, nodes + [leaf], PushNewChild(nodes, p, leaf));
  }

  /** Where `PushNewChild` puts the new node: at the end of the arena, as the
      last child of `p` and of no other node, in the subtree under `p`; every
      other node is left as it was */
  lemma PushNewChildPlacement(nodes: seq<TreeNode>, p: nat, leaf: TreeNode)
    requires WellFormed(nodes) && p < |nodes| && nodes[p].children.Some? && ChildrenOf(leaf) == []
    ensures var after := PushNewChild(nodes, p, leaf);
      && WellFormed(after) && Extends(nodes, after)
      && |after| == |nodes| + 1 && after[|nodes|] == leaf
      && ChildrenOf(after[p]) == ChildrenOf(nodes[p]) + [|nodes|]
      && (forall i | 0 <= i < |nodes| && i != p :: after[i] == nodes[i])
      && |nodes| in PreOrder(after, p)
      && forall i, k | 0 <= i < |after| && 0 <= k < |ChildrenOf(after[i])| && ChildAt(after, i, k) == |nodes| :: i == p
  {
    var after := PushNewChild(nodes, p, leaf);
    PushNewChildExtends(nodes, p, leaf);
    var cs := ChildrenOf(after[p]);
    assert ChildAt(after, p, |cs| - 1) == |nodes|;
    ChildSubtree(after, p, |cs| - 1, |nodes|);
    forall i, k | 0 <= i < |after| && 0 <= k < |ChildrenOf(after[i])| && ChildAt(after, i, k) == |nodes|
      ensures i == p
    {
    }
  }

  /** Resolving a folder path from `start`, then appending `leaf` as a new last
      child of the node the path resolved to */
  ghost function PlaceInFolder(nodes: seq<TreeNode>, start: nat, serverName: string, segs: seq<string>, leaf: TreeNode): (after: seq<TreeNode>)
    requires WellFormed(nodes) && start < |nodes| && nodes[start].children.Some?
    requires NoLeafNamed(nodes, start, segs) && ChildrenOf(leaf) == []
    ensures WellFormed(after) && Extends(nodes, after) && |after| >= |nodes| + 1 && after[|after| - 1] == leaf
    ensures forall i | 0 <= i < start :: after[i] == nodes[i]
  {
    var res := ResolvePath(nodes, start, serverName, segs);
    PushNewChildExtends(res.0, res.1, leaf);
    ExtendsTransitive(nodes, res.0, PushNewChild(res.0, res.1, leaf));
    PushNewChild(res.0, res.1, leaf)
  }

  /** The node `PlaceInFolder` pushes the leaf under: the node the path
      resolves to */
  ghost function PlaceTarget(nodes: seq<TreeNode>, start: nat, serverName: string, segs: seq<string>): nat
    requires WellFormed(nodes) && start < |nodes| && nodes[start].children.Some?
    requires NoLeafNamed(nodes, start, segs)
  {
    ResolvePath(nodes, start, serverName, segs).1
  }

  /** Where `PlaceInFolder` puts the leaf: at the end of the arena, as the last
      child of a node named after the last segment and of no other node */
  lemma PlaceInFolderPlacement(nodes: seq<TreeNode>, start: nat, serverName: string, segs: seq<string>, leaf: TreeNode)
    requires WellFormed(nodes) && start < |nodes| && nodes[start].children.Some?
    requires NoLeafNamed(nodes, start, segs) && ChildrenOf(leaf) == [] && segs != []
    ensures var after := PlaceInFolder(nodes, start, serverName, segs, leaf);
      var t := PlaceTarget(nodes, start, serverName, segs);
      && after[|after| - 1] == leaf
      && start <= t < |after| - 1 && after[t].id == segs[|segs| - 1]
      && |ChildrenOf(after[t])| > 0 && ChildAt(after, t, |ChildrenOf(after[t])| - 1) == |after| - 1
      && forall i, k | 0 <= i < |after| && 0 <= k < |ChildrenOf(after[i])| && ChildAt(after, i, k) == |after| - 1 :: i == t
  {
    var res := ResolvePath(nodes, start, serverName, segs);
    PushNewChildPlacement(res.0, res.1, leaf);
  }

  /** The folder the leaf goes into lies in the subtree under `start` */
  lemma PlaceInFolderInSubtree(nodes: seq<TreeNode>, start: nat, serverName: string, segs: seq<string>, leaf: TreeNode)
    requires WellFormed(nodes) && start < |nodes| && nodes[start].children.Some?
    requires NoLeafNamed(nodes, start, segs) && ChildrenOf(leaf) == []
    ensures var after := PlaceInFolder(nodes, start, serverName, segs, leaf);
      var t := PlaceTarget(nodes, start, serverName, segs);
      t in PreOrder(after, start)
  {
    var res := ResolvePath(nodes, start, serverName, segs);
    var ns, t := res.0, res.1;
    PushNewChildPlacement(ns, t, leaf);
    ResolvePathInSubtree(nodes, start, serverName, segs);
    var after := PushNewChild(ns, t, leaf);
    assert after == PlaceInFolder(nodes, start, serverName, segs, leaf);
    SubtreeGrows(ns, after, start, t);
  }

  /** Every node `PlaceInFolder` adds besides the leaf is a folder node named
      after one of the segments */
  lemma PlaceInFolderAddsFolders(nodes: seq<TreeNode>, start: nat, serverName: string, segs: seq<string>, leaf: TreeNode)
    requires WellFormed(nodes) && start < |nodes| && nodes[start].children.Some?
    requires NoLeafNamed(nodes, start, segs) && ChildrenOf(leaf) == []
    ensures var after := PlaceInFolder(nodes, start, serverName, segs, leaf);
      NewNodesAreFolders(nodes, after[..|after| - 1], serverName, segs)
  {
    var res := ResolvePath(nodes, start, serverName, segs);
    var ns, t := res.0, res.1;
    PushNewChildPlacement(ns, t, leaf);
    var after := PushNewChild(ns, t, leaf);
    forall x | |nodes| <= x < |ns|
      ensures after[x] == ns[x].(children := after[x].children)
    {
    }
  }

  // ------------------------------------------------------------ folder paths

  /** `hasFolder`: the mapping has metadata with a non-empty folder */
  predicate HasFolder(m: Mapping)
  {
    m.metadata.Some? && m.metadata.value.folder.Some? && |m.metadata.value.folder.value| > 0
  }

  /** The folder of a mapping, when `HasFolder` holds */
  function FolderOf(m: Mapping): string
    requires HasFolder(m)
  {
    m.metadata.value.folder.value
  }

  /** The parts of `s` between occurrences of `sep`, as JavaScript's
      `String.prototype.split` with a one-character separator gives them */
  function Split(s: string, sep: char): (parts: seq<string>)
    ensures |parts| >= 1
  {
    if s == [] then [""]
    else
      var rest := Split(s[1..], sep);
      if s[0] == sep then [""] + rest
      else [[s[0]] + rest[0]] + rest[1..]
  }

  /** No part holds the separator, and joining the parts with it gives back
      the string */
  lemma {:induction false} SplitParts(s: string, sep: char)
    ensures var parts := Split(s, sep);
      && (forall k | 0 <= k < |parts| :: sep !in parts[k])
      && Join(parts, sep) == s
    decreases |s|
  {
    if s != [] {
      var rest := Split(s[1..], sep);
      SplitParts(s[1..], sep);
      if s[0] == sep {
        assert ([""] + rest)[1..] == rest;
      } else {
        var parts := [[s[0]] + rest[0]] + rest[1..];
        assert parts[1..] == rest[1..];
        assert forall k | 1 <= k < |parts| :: parts[k] == rest[k];
        assert Join(parts, sep) == [s[0]] + Join(rest, sep);
        assert s == [s[0]] + s[1..];
      }
    }
  }

  /** The parts with `sep` between consecutive ones */
  function Join(parts: seq<string>, sep: char): string
    requires |parts| >= 1
  {
    if |parts| == 1 then parts[0] else parts[0] + [sep] + Join(parts[1..], sep)
  }

  lemma {:induction false} SplitPartWithoutSeparator(w: string, sep: char)
    requires sep !in w
    ensures Split(w, sep) == [w]
    decreases |w|
  {
    if w != [] {
      SplitPartWithoutSeparator(w[1..], sep);
      assert [w[0]] + w[1..] == w;
    }
  }

  lemma {:induction false} SplitAfterPart(w: string, sep: char, rest: string)
    requires sep !in w
    ensures Split(w + [sep] + rest, sep) == [w] + Split(rest, sep)
    decreases |w|
  {
    var s := w + [sep] + rest;
    if w == [] {
      assert s[0] == sep && s[1..] == rest;
    } else {
      assert s[0] == w[0] && s[1..] == w[1..] + [sep] + rest;
      SplitAfterPart(w[1..], sep, rest);
      assert [w[0]] + w[1..] == w;
    }
  }

  /** Splitting what `Join` built gives back the parts, when no part holds the separator */
  lemma {:induction false} SplitJoin(parts: seq<string>, sep: char)
    requires |parts| >= 1
    requires forall k | 0 <= k < |parts| :: sep !in parts[k]
    ensures Split(Join(parts, sep), sep) == parts
    decreases |parts|
  {
    if |parts| == 1 {
      SplitPartWithoutSeparator(parts[0], sep);
    } else {
      SplitJoin(parts[1..], sep);
      SplitAfterPart(parts[0], sep, Join(parts[1..], sep));
      assert [parts[0]] + parts[1..] == parts;
    }
  }

  /** A mapping has a folder exactly when its metadata holds a folder whose
      path is more than the single empty segment */
  lemma HasFolderMeaning(m: Mapping)
    ensures HasFolder(m) <==>
      m.metadata.Some? && m.metadata.value.folder.Some? && Split(m.metadata.value.folder.value, '/') != [""]
  {
    if m.metadata.Some? && m.metadata.value.folder.Some? {
      var folder := m.metadata.value.folder.value;
      SplitParts(folder, '/');
      if Split(folder, '/') == [""] {
        assert Join([""], '/') == "";
      }
    }
  }
}
