/** The node tree as a value: a flat map from id to node with parent links, and the
    queries over it (depth, children, leaf test, descendants, parent shape) together with
    the stale-marking walk that an edit runs over a copy of the map. */
module NodeTree {
  import opened Wrappers
  import opened SchemaUtils
  import opened Constants

  /** One query step: its prompt, its SQL fragment (reading from the `{parent}`
      placeholder) and the shape that fragment produces. */
  datatype Node = Node(
    id: string,
    parentId: Option<string>,
    prompt: string,
    sql: string,
    schema: Option<Schema>,
    isStale: bool,
    error: Option<string>)

  type Nodes = map<string, Node>

  /** JavaScript truthiness of an id: `null`, `undefined` and "" are false. */
  predicate Truthy(o: Option<string>)
  {
    o.Some? && o.value != ""
  }

  /** The parent links alone. */
  ghost function Parents(m: Nodes): map<string, Option<string>>
  {
    map k | k in m :: m[k].parentId
  }

  /** `rank` witnesses that following parent links terminates: a parent that exists
      has a smaller rank than its child. */
  ghost predicate Ranked(ps: map<string, Option<string>>, rank: map<string, nat>)
  {
    forall k :: k in ps ==>
      k in rank &&
      (ps[k].Some? && ps[k].value in ps ==> ps[k].value in rank && rank[ps[k].value] < rank[k])
  }

  ghost function Measure(ps: map<string, Option<string>>, rank: map<string, nat>, x: string): nat
  {
    if x in ps && x in rank then rank[x] + 1 else 0
  }

  ghost predicate KeysMatch(m: Nodes)
  {
    forall k :: k in m ==> m[k].id == k
  }

  ghost predicate ParentsExist(m: Nodes)
  {
    forall k :: k in m && m[k].parentId.Some? ==> m[k].parentId.value in m
  }

  /** Every key is its node's id, ids are non-empty, and no parent link dangles. */
  ghost predicate WellFormed(m: Nodes)
  {
    "" !in m && KeysMatch(m) && ParentsExist(m)
  }

  /** The number of truthy parent links followed from `id`; a link to a missing node
      still counts once, then the walk stops. */
  ghost function Depth(ps: map<string, Option<string>>, rank: map<string, nat>, id: string): nat
    requires Ranked(ps, rank)
    decreases Measure(ps, rank, id)
  {
    if id in ps && Truthy(ps[id]) then 1 + Depth(ps, rank, ps[id].value) else 0
  }

  /** The depth a new node would get under `parentId` (0 for a root). */
  ghost function ProspectiveDepth(ps: map<string, Option<string>>, rank: map<string, nat>, parentId: Option<string>): nat
    requires Ranked(ps, rank)
  {
    if Truthy(parentId) then Depth(ps, rank, parentId.value) + 1 else 0
  }

  /** `x` is a strict descendant of `a`: following parents from `x` reaches `a`. */
  ghost predicate DescendsFrom(ps: map<string, Option<string>>, rank: map<string, nat>, x: string, a: string)
    requires Ranked(ps, rank)
    decreases Measure(ps, rank, x)
  {
    x in ps && ps[x].Some? && (ps[x].value == a || DescendsFrom(ps, rank, ps[x].value, a))
  }

  /** The child of `a` through which the strict descendant `x` hangs below `a`. */
  ghost function TopBelow(ps: map<string, Option<string>>, rank: map<string, nat>, x: string, a: string): (t: string)
    requires Ranked(ps, rank) && DescendsFrom(ps, rank, x, a)
    ensures t in ps && ps[t] == Some(a)
    ensures t == x || DescendsFrom(ps, rank, x, t)
    decreases Measure(ps, rank, x)
  {
    if ps[x].value == a then x else TopBelow(ps, rank, ps[x].value, a)
  }

  /** An ancestor has a smaller rank than its descendant; in particular no node descends
      from itself. */
  lemma {:induction false} DescendsRank(ps: map<string, Option<string>>, rank: map<string, nat>, x: string, a: string)
    requires Ranked(ps, rank) && a in ps
    ensures DescendsFrom(ps, rank, x, a) ==> x in rank && a in rank && rank[a] < rank[x]
    decreases Measure(ps, rank, x)
  {
    if DescendsFrom(ps, rank, x, a) && ps[x].value != a {
      var p := ps[x].value;
      assert DescendsFrom(ps, rank, p, a);
      assert p in ps;
      DescendsRank(ps, rank, p, a);
    }
  }

  /** The descendants of a child `c` of `a` are the descendants of `a` that hang below `a`
      through `c`. */
  lemma {:induction false} BelowChild(ps: map<string, Option<string>>, rank: map<string, nat>, x: string, c: string, a: string)
    requires Ranked(ps, rank) && c in ps && ps[c] == Some(a)
    requires x == c || DescendsFrom(ps, rank, x, c)
    ensures DescendsFrom(ps, rank, x, a) && TopBelow(ps, rank, x, a) == c
    decreases Measure(ps, rank, x)
  {
    if x != c {
      var p := ps[x].value;
      if a in ps && a == c {
        assert false;
      }
      if p == c {
        assert DescendsFrom(ps, rank, c, a);
      } else {
        BelowChild(ps, rank, p, c, a);
        if p == a {
          DescendsRank(ps, rank, a, c);
        }
      }
    }
  }

  /** `getChildren`: the nodes whose parent is `parentId` (`None` gives the roots). */
  function Children(m: Nodes, parentId: Option<string>): (r: set<Node>)
    ensures forall n :: n in r <==> n in m.Values && n.parentId == parentId
  {
    set k | k in m && m[k].parentId == parentId :: m[k]
  }

  /** `isLeaf`: no node names `id` as its parent. */
  predicate IsLeaf(m: Nodes, id: string): (r: bool)
    ensures r <==> Children(m, Some(id)) == {}
  {
    var leaf := !exists k :: k in m && m[k].parentId == Some(id);
    assert !leaf ==> Children(m, Some(id)) != {} by {
      if !leaf {
        var k :| k in m && m[k].parentId == Some(id);
        assert m[k] in Children(m, Some(id));
      }
    }
    leaf
  }

  /** `hasDescendants`: whether `id` has a direct child. */
  predicate HasDescendants(m: Nodes, id: string): (r: bool)
    ensures r <==> exists n :: n in m.Values && n.parentId == Some(id)
  {
    var cs := Children(m, Some(id));
    assert |cs| > 0 ==> exists n :: n in m.Values && n.parentId == Some(id) by {
      if |cs| > 0 {
        var n :| n in cs;
      }
    }
    |cs| > 0
  }

  lemma HasDescendantsIsNotLeaf(m: Nodes, id: string)
    ensures HasDescendants(m, id) <==> !IsLeaf(m, id)
  {
    if !IsLeaf(m, id) {
      var k :| k in m && m[k].parentId == Some(id);
      assert m[k] in Children(m, Some(id));
    }
    if HasDescendants(m, id) {
      var n :| n in Children(m, Some(id));
      var k :| k in m && m[k] == n;
      assert m[k].parentId == Some(id);
    }
  }

  /** Although it only looks at direct children, `hasDescendants` agrees with a full
      descendant search on every tree whose parent walks terminate. */
  lemma ShallowTestIsDeep(m: Nodes, rank: map<string, nat>, id: string)
    requires Ranked(Parents(m), rank)
    ensures HasDescendants(m, id) <==> exists x :: DescendsFrom(Parents(m), rank, x, id)
  {
    var ps := Parents(m);
    if HasDescendants(m, id) {
      var n :| n in Children(m, Some(id));
      var k :| k in m && m[k] == n;
      assert ps[k] == Some(id);
      assert DescendsFrom(ps, rank, k, id);
      assert exists x :: DescendsFrom(Parents(m), rank, x, id);
    }
    if exists x :: DescendsFrom(ps, rank, x, id) {
      var x :| DescendsFrom(ps, rank, x, id);
      var t := TopBelow(ps, rank, x, id);
      assert t in m && m[t].parentId == Some(id);
      assert m[t] in Children(m, Some(id));
      assert HasDescendants(m, id);
    }
  }

  /** `getParentSchema`: the parent's shape, or the base shape for no parent, a missing
      parent or a parent without a shape. */
  function ParentSchema(m: Nodes, parentId: Option<string>): (s: Schema)
    ensures !Truthy(parentId) || parentId.value !in m ==> s == BASE_SCHEMA
    ensures Truthy(parentId) && parentId.value in m ==>
              s == if m[parentId.value].schema.Some? then m[parentId.value].schema.value else BASE_SCHEMA
  {
    if !Truthy(parentId) then BASE_SCHEMA
    else if parentId.value in m && m[parentId.value].schema.Some? then m[parentId.value].schema.value
    else BASE_SCHEMA
  }

  /** The nodes after `markStale(id)`: every strict descendant of `id` is flagged stale. */
  ghost function StaleMarked(m: Nodes, rank: map<string, nat>, id: string): Nodes
    requires Ranked(Parents(m), rank)
  {
    map k | k in m :: if DescendsFrom(Parents(m), rank, k, id) then m[k].(isStale := true) else m[k]
  }

  /** Flagging nodes stale changes no id and no parent link. */
  lemma StaleMarkedShape(m: Nodes, rank: map<string, nat>, id: string)
    requires Ranked(Parents(m), rank)
    ensures StaleMarked(m, rank, id).Keys == m.Keys
    ensures Parents(StaleMarked(m, rank, id)) == Parents(m)
    ensures KeysMatch(m) ==> KeysMatch(StaleMarked(m, rank, id))
  {
    var r := StaleMarked(m, rank, id);
    assert forall j :: j in r ==> r[j].parentId == m[j].parentId;
  }

  function Flagged(n: Node, stale: bool): Node
  {
    if stale then n.(isStale := true) else n
  }

  /** `x` hangs below a child of `id` that the loop of `markStale(id)` has visited. */
  ghost predicate Visited(ps: map<string, Option<string>>, rank: map<string, nat>, x: string, id: string, todo: set<string>)
    requires Ranked(ps, rank)
  {
    DescendsFrom(ps, rank, x, id) && TopBelow(ps, rank, x, id) !in todo
  }

  /** Partial progress of `markStale(id)`: the subtrees below the visited children of
      `id` have been flagged, and nothing else. */
  ghost predicate MarkedExcept(updated: Nodes, marked: Nodes, ps: map<string, Option<string>>, rank: map<string, nat>, id: string, todo: set<string>)
    requires Ranked(ps, rank)
  {
    && marked.Keys == updated.Keys
    && forall x :: x in updated ==> marked[x] == Flagged(updated[x], Visited(ps, rank, x, id, todo))
  }

  /** Visiting a node that is not a child of `id` changes nothing. */
  lemma MarkSkip(updated: Nodes, marked: Nodes, ps: map<string, Option<string>>, rank: map<string, nat>, id: string, todo: set<string>, k: string)
    requires Ranked(ps, rank) && MarkedExcept(updated, marked, ps, rank, id, todo)
    requires k in ps && ps[k] != Some(id)
    ensures MarkedExcept(updated, marked, ps, rank, id, todo - {k})
  {
    forall x | x in updated
      ensures Visited(ps, rank, x, id, todo - {k}) == Visited(ps, rank, x, id, todo)
    {
    }
  }

  /** Visiting a child `k` of `id` and flagging `k` and its subtree extends the flagged part. */
  lemma MarkChild(updated: Nodes, marked: Nodes, ps: map<string, Option<string>>, rank: map<string, nat>, id: string, todo: set<string>, k: string)
    requires Ranked(ps, rank) && MarkedExcept(updated, marked, ps, rank, id, todo)
    requires k in ps && ps[k] == Some(id) && k in marked
    ensures MarkedExcept(updated, Below(marked[k := marked[k].(isStale := true)], ps, rank, k), ps, rank, id, todo - {k})
  {
    var flagged := marked[k := marked[k].(isStale := true)];
    var after := Below(flagged, ps, rank, k);
    forall x | x in updated
      ensures after[x] == Flagged(updated[x], Visited(ps, rank, x, id, todo - {k}))
    {
      if x == k || DescendsFrom(ps, rank, x, k) {
        BelowChild(ps, rank, x, k, id);
      }
    }
  }

  /** The nodes of `m` with the strict descendants of `k` under `ps` flagged stale. */
  ghost function Below(m: Nodes, ps: map<string, Option<string>>, rank: map<string, nat>, k: string): Nodes
    requires Ranked(ps, rank)
  {
    map x | x in m :: Flagged(m[x], DescendsFrom(ps, rank, x, k))
  }

  lemma StaleMarkedIsBelow(m: Nodes, rank: map<string, nat>, k: string)
    requires Ranked(Parents(m), rank)
    ensures StaleMarked(m, rank, k) == Below(m, Parents(m), rank, k)
  {
  }

  /** Replacing a node by one with the same id and parent changes no id and no parent
      link. */
  lemma EditKeepsShape(m: Nodes, k: string, n: Node)
    requires WellFormed(m) && k in m && n.id == k && n.parentId == m[k].parentId
    ensures WellFormed(m[k := n]) && m[k := n].Keys == m.Keys
    ensures Parents(m[k := n]) == Parents(m)
  {
    var e := m[k := n];
    assert forall j :: j in e ==> e[j].parentId == m[j].parentId;
  }

  /** Flagging one node stale changes no id and no parent link. */
  lemma FlagKeepsShape(m: Nodes, k: string)
    requires KeysMatch(m) && k in m
    ensures KeysMatch(m[k := m[k].(isStale := true)])
    ensures Parents(m[k := m[k].(isStale := true)]) == Parents(m)
  {
    var f := m[k := m[k].(isStale := true)];
    assert forall j :: j in f ==> f[j].parentId == m[j].parentId;
  }

  /** `markStale`: for each node of a snapshot of the map whose parent is `id`, flag it
      stale in the working copy and recurse into it. */
  method MarkStale(updated: Nodes, id: string, ghost rank: map<string, nat>) returns (marked: Nodes)
    requires KeysMatch(updated) && Ranked(Parents(updated), rank) && id in updated
    ensures marked == StaleMarked(updated, rank, id)
    decreases set k | k in rank && rank[k] > rank[id]
  {
    ghost var ps := Parents(updated);
    marked := updated;
    var todo := updated.Keys;
    while todo != {}
      invariant todo <= updated.Keys
      invariant Parents(marked) == ps && KeysMatch(marked)
      invariant MarkedExcept(updated, marked, ps, rank, id, todo)
      decreases todo
    {
      var k :| k in todo;
      var n := updated[k];
      if n.parentId == Some(id) {
        MarkChild(updated, marked, ps, rank, id, todo, k);
        FlagKeepsShape(marked, k);
        marked := marked[n.id := marked[n.id].(isStale := true)];
        assert n.id == k && rank[k] > rank[id];
        ghost var above := set j | j in rank && rank[j] > rank[id];
        ghost var aboveK := set j | j in rank && rank[j] > rank[k];
        assert k in above && k !in aboveK && aboveK <= above;
        assert aboveK < above;
        StaleMarkedShape(marked, rank, k);
        StaleMarkedIsBelow(marked, rank, k);
        marked := MarkStale(marked, n.id, rank);
      } else {
        MarkSkip(updated, marked, ps, rank, id, todo, k);
      }
      todo := todo - {k};
    }
    MarkedAll(updated, marked, rank, id);
  }

  /** Once every child of `id` has been visited, exactly the strict descendants of `id`
      are flagged. */
  lemma MarkedAll(updated: Nodes, marked: Nodes, rank: map<string, nat>, id: string)
    requires Ranked(Parents(updated), rank) && MarkedExcept(updated, marked, Parents(updated), rank, id, {})
    ensures marked == StaleMarked(updated, rank, id)
  {
    assert forall x :: x in updated ==> marked[x] == StaleMarked(updated, rank, id)[x];
  }

  /** Adding a fresh node keeps every existing depth and gives the new node the depth
      `canAddNode` predicted for it. */
  lemma {:induction false} DepthAfterInsert(ps: map<string, Option<string>>, rank: map<string, nat>,
                                            id: string, parentId: Option<string>, k: string)
    requires Ranked(ps, rank) && id !in ps
    requires parentId.Some? ==> parentId.value in ps
    requires forall j :: j in ps ==> ps[j] != Some(id)
    ensures Ranked(ps[id := parentId], rank[id := InsertRank(ps, rank, parentId)])
    ensures k != id ==> Depth(ps[id := parentId], rank[id := InsertRank(ps, rank, parentId)], k) == Depth(ps, rank, k)
    ensures k == id ==> Depth(ps[id := parentId], rank[id := InsertRank(ps, rank, parentId)], k) == ProspectiveDepth(ps, rank, parentId)
    decreases Measure(ps[id := parentId], rank[id := InsertRank(ps, rank, parentId)], k)
  {
    var ps', rank' := ps[id := parentId], rank[id := InsertRank(ps, rank, parentId)];
    forall j | j in ps'
      ensures j in rank' && (ps'[j].Some? && ps'[j].value in ps' ==> ps'[j].value in rank' && rank'[ps'[j].value] < rank'[j])
    {
      if j != id && ps'[j].Some? && ps'[j].value in ps' {
        assert ps'[j].value != id;
      }
    }
    if k == id {
      if Truthy(parentId) {
        DepthAfterInsert(ps, rank, id, parentId, parentId.value);
      }
    } else if k in ps && Truthy(ps[k]) {
      DepthAfterInsert(ps, rank, id, parentId, ps[k].value);
    }
  }

  /** Inserting a fresh node under an existing parent (or none) keeps the map well formed,
      keeps every existing depth, and gives the new node the predicted depth. */
  lemma InsertNode(m: Nodes, rank: map<string, nat>, n: Node)
    requires WellFormed(m) && Ranked(Parents(m), rank)
    requires n.id != "" && n.id !in m
    requires n.parentId.Some? ==> n.parentId.value in m
    ensures WellFormed(m[n.id := n])
    ensures Parents(m[n.id := n]) == Parents(m)[n.id := n.parentId]
    ensures Ranked(Parents(m[n.id := n]), rank[n.id := InsertRank(Parents(m), rank, n.parentId)])
    ensures Depth(Parents(m[n.id := n]), rank[n.id := InsertRank(Parents(m), rank, n.parentId)], n.id)
            == ProspectiveDepth(Parents(m), rank, n.parentId)
    ensures forall k :: k in m ==>
              Depth(Parents(m[n.id := n]), rank[n.id := InsertRank(Parents(m), rank, n.parentId)], k)
              == Depth(Parents(m), rank, k)
  {
    var ps := Parents(m);
    var id := n.id;
    assert forall j :: j in ps ==> ps[j] != Some(id);
    assert Parents(m[id := n]) == ps[id := n.parentId];
    DepthAfterInsert(ps, rank, id, n.parentId, id);
    forall k | k in m
      ensures Depth(ps[id := n.parentId], rank[id := InsertRank(ps, rank, n.parentId)], k) == Depth(ps, rank, k)
    {
      DepthAfterInsert(ps, rank, id, n.parentId, k);
    }
  }

  /** The rank a new node receives: one more than its parent's. */
  ghost function InsertRank(ps: map<string, Option<string>>, rank: map<string, nat>, parentId: Option<string>): nat
  {
    if parentId.Some? && parentId.value in ps && parentId.value in rank then rank[parentId.value] + 1 else 0
  }
}
