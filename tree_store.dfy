/** The tree state of the node store: the node map, the active node and the AI-mode flag,
    changed in place by the store's operations. Persistence to session storage and the
    id generator are outside the model; a fresh id is passed in. */
module TreeStore {
  import opened Wrappers
  import opened Strings
  import opened SchemaUtils
  import opened Constants
  import opened NodeTree

  /** The answer of `canAddNode`. */
  datatype AddCheck = Allowed | Refused(reason: string)

  const TOO_MANY_NODES := "Max " + IntToString(MAX_TOTAL_NODES) + " nodes"
  const TOO_DEEP := "Max depth " + IntToString(MAX_TREE_DEPTH)

  class Tree {
    var nodes: Nodes
    var activeId: Option<string>
    var aiMode: bool
    /** A termination witness for parent walks, kept up to date by every operation. */
    ghost var rank: map<string, nat>

    ghost predicate Valid()
      reads this
    {
      WellFormed(nodes) && Ranked(Parents(nodes), rank)
    }

    /** `createEmptyTree`. */
    constructor ()
      ensures Valid()
      ensures nodes == map[] && activeId == None && !aiMode
    {
      nodes := map[];
      activeId := None;
      aiMode := false;
      rank := map[];
    }

    /** `getNodeDepth`: walk up the parent links from `nodeId`, counting them. */
    method GetNodeDepth(nodeId: string) returns (depth: nat)
      requires Valid()
      ensures depth == Depth(Parents(nodes), rank, nodeId)
    {
      ghost var ps := Parents(nodes);
      depth := 0;
      var current: Option<Node> := if nodeId in nodes then Some(nodes[nodeId]) else None;
      var at := nodeId;
      while current.Some? && Truthy(current.value.parentId)
        invariant current.Some? <==> at in nodes
        invariant current.Some? ==> current.value == nodes[at]
        invariant depth + Depth(ps, rank, at) == Depth(ps, rank, nodeId)
        decreases Measure(ps, rank, at)
      {
        depth := depth + 1;
        at := current.value.parentId.value;
        current := if at in nodes then Some(nodes[at]) else None;
      }
    }

    /** `canAddNode`: refuse when the store is full, then when the new node would be too
        deep; otherwise allow. */
    method CanAddNode(parentId: Option<string>) returns (r: AddCheck)
      requires Valid()
      ensures r.Refused? <==>
                |nodes| >= MAX_TOTAL_NODES || ProspectiveDepth(Parents(nodes), rank, parentId) >= MAX_TREE_DEPTH
      ensures |nodes| >= MAX_TOTAL_NODES ==> r == Refused(TOO_MANY_NODES)
      ensures |nodes| < MAX_TOTAL_NODES && r.Refused? ==> r == Refused(TOO_DEEP)
    {
      if |nodes| >= MAX_TOTAL_NODES {
        return Refused(TOO_MANY_NODES);
      }
      var depth := 0;
      if Truthy(parentId) {
        depth := GetNodeDepth(parentId.value);
        depth := depth + 1;
      }
      if depth >= MAX_TREE_DEPTH {
        return Refused(TOO_DEEP);
      }
      return Allowed;
    }

    /** `addNode`: insert a fresh, valid node under `parentId` and make it active. */
    method AddNode(parentId: Option<string>, prompt: string, sql: string, schema: Option<Schema>, freshId: string)
      returns (id: string)
      requires Valid()
      requires freshId != "" && freshId !in nodes
      requires parentId.Some? ==> parentId.value in nodes
      modifies this
      ensures Valid()
      ensures id == freshId
      ensures nodes == old(nodes)[id := Node(id, parentId, prompt, sql, schema, false, None)]
      ensures activeId == Some(id) && aiMode == old(aiMode)
      ensures Depth(Parents(nodes), rank, id) == ProspectiveDepth(Parents(old(nodes)), old(rank), parentId)
      ensures forall k :: k in old(nodes) ==> Depth(Parents(nodes), rank, k) == Depth(Parents(old(nodes)), old(rank), k)
    {
      id := freshId;
      var node := Node(id, parentId, prompt, sql, schema, false, None);
      var m0 := nodes;
      ghost var r0 := rank;
      InsertNode(m0, r0, node);
      rank := r0[id := InsertRank(Parents(m0), r0, parentId)];
      nodes := m0[id := node];
      activeId := Some(id);
    }

    /** `updateNode`: on an existing node, replace prompt, SQL and shape and clear the
        error; when the shape changed, flag every strict descendant stale. A missing id
        leaves the tree as it was. */
    method UpdateNode(nodeId: string, prompt: string, sql: string, newSchema: Option<Schema>)
      requires Valid()
      modifies this
      ensures Valid()
      ensures activeId == old(activeId) && aiMode == old(aiMode) && rank == old(rank)
      ensures nodeId !in old(nodes) ==> nodes == old(nodes)
      ensures nodeId in old(nodes) ==>
                && nodes.Keys == old(nodes).Keys
                && nodes[nodeId] == old(nodes)[nodeId].(prompt := prompt, sql := sql, schema := newSchema, error := None)
                && forall k :: k in old(nodes) && k != nodeId ==>
                     nodes[k] == if !SchemasEqual(old(nodes)[nodeId].schema, newSchema) &&
                                    DescendsFrom(Parents(old(nodes)), rank, k, nodeId)
                                 then old(nodes)[k].(isStale := true) else old(nodes)[k]
    {
      if nodeId in nodes {
        var node := nodes[nodeId];
        var edited := node.(prompt := prompt, sql := sql, schema := newSchema, error := None);
        EditKeepsShape(nodes, nodeId, edited);
        var updated := nodes[nodeId := edited];
        if !SchemasEqual(node.schema, newSchema) {
          StaleMarkedShape(updated, rank, nodeId);
          DescendsRank(Parents(nodes), rank, nodeId, nodeId);
          updated := MarkStale(updated, nodeId, rank);
        }
        nodes := updated;
      }
    }

    /** `deleteNode`: a missing node or one with a child is kept; a leaf is removed and
        its parent becomes the active node, whichever node was active before. */
    method DeleteNode(nodeId: string)
      requires Valid()
      modifies this
      ensures Valid()
      ensures aiMode == old(aiMode)
      ensures nodeId !in old(nodes) || !IsLeaf(old(nodes), nodeId) ==>
                nodes == old(nodes) && activeId == old(activeId)
      ensures nodeId in old(nodes) && IsLeaf(old(nodes), nodeId) ==>
                nodes == old(nodes) - {nodeId} && activeId == old(nodes)[nodeId].parentId
    {
      if nodeId !in nodes {
        return;
      }
      var node := nodes[nodeId];
      var children := Children(nodes, Some(nodeId));
      HasDescendantsIsNotLeaf(nodes, nodeId);
      if |children| > 0 {
        return;
      }
      ghost var ps := Parents(nodes);
      nodes := nodes - {nodeId};
      assert forall j :: j in nodes ==> j in ps && Parents(nodes)[j] == ps[j];
      activeId := node.parentId;
    }

    /** `setActiveNode`. */
    method SetActiveNode(nodeId: Option<string>)
      requires Valid()
      modifies this
      ensures Valid()
      ensures activeId == nodeId && nodes == old(nodes) && aiMode == old(aiMode)
    {
      activeId := nodeId;
    }

    /** `setNodeError` on an existing node. */
    method SetNodeError(nodeId: string, error: Option<string>)
      requires Valid() && nodeId in nodes
      modifies this
      ensures Valid()
      ensures nodes == old(nodes)[nodeId := old(nodes)[nodeId].(error := error)]
      ensures activeId == old(activeId) && aiMode == old(aiMode)
    {
      ghost var ps := Parents(nodes);
      nodes := nodes[nodeId := nodes[nodeId].(error := error)];
      assert Parents(nodes) == ps;
    }

    /** `clearNodeStale` on an existing node. */
    method ClearNodeStale(nodeId: string)
      requires Valid() && nodeId in nodes
      modifies this
      ensures Valid()
      ensures nodes == old(nodes)[nodeId := old(nodes)[nodeId].(isStale := false)]
      ensures activeId == old(activeId) && aiMode == old(aiMode)
    {
      ghost var ps := Parents(nodes);
      nodes := nodes[nodeId := nodes[nodeId].(isStale := false)];
      assert Parents(nodes) == ps;
    }

    method SetAiMode(on: bool)
      requires Valid()
      modifies this
      ensures Valid()
      ensures aiMode == on && nodes == old(nodes) && activeId == old(activeId)
    {
      aiMode := on;
    }

    /** `resetTree`: back to the empty tree, with AI mode off. */
    method ResetTree()
      modifies this
      ensures Valid()
      ensures nodes == map[] && activeId == None && !aiMode
    {
      nodes := map[];
      activeId := None;
      aiMode := false;
      rank := map[];
    }
  }

  /** A node that `canAddNode` allows keeps the store within both limits once added. */
  lemma AllowedAddStaysWithinLimits(ps: map<string, Option<string>>, rank: map<string, nat>,
                                    id: string, parentId: Option<string>)
    requires Ranked(ps, rank) && id !in ps
    requires parentId.Some? ==> parentId.value in ps
    requires forall j :: j in ps ==> ps[j] != Some(id)
    requires |ps| < MAX_TOTAL_NODES && ProspectiveDepth(ps, rank, parentId) < MAX_TREE_DEPTH
    ensures |ps[id := parentId]| <= MAX_TOTAL_NODES
    ensures Depth(ps[id := parentId], rank[id := InsertRank(ps, rank, parentId)], id) < MAX_TREE_DEPTH
  {
    DepthAfterInsert(ps, rank, id, parentId, id);
  }
}
