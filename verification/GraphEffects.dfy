/**
 * What each operation of the graph store leaves behind: the node or edge found under every id,
 * the far ends the adjacency maps hold, and the ids given out, said without the operations' bodies.
 */
module GraphEffects {
  import opened Bytes
  import opened SortedEntries
  import opened Encoding
  import opened GraphStore

  function NodeAt(g: Graph, id: Id): Option<Node> {
    if id in g.nodes then Some(g.nodes[id]) else None
  }

  function EdgeAt(g: Graph, id: Id): Option<Edge> {
    if id in g.edges then Some(g.edges[id]) else None
  }

  ghost predicate SameNodesBut(g: Graph, r: Graph, id: Id) {
    forall i: Id :: i != id ==> NodeAt(r, i) == NodeAt(g, i)
  }

  ghost predicate SameEdgesBut(g: Graph, r: Graph, id: Id) {
    forall i: Id :: i != id ==> EdgeAt(r, i) == EdgeAt(g, i)
  }

  /** The node is an end of a stored edge. */
  ghost predicate Connected(g: Graph, n: Id) {
    exists i :: i in g.edges && (g.edges[i].src == n || g.edges[i].dst == n)
  }

  /** What one operation does to the nodes, the edges and the next ids. */
  ghost predicate Effect(g: Graph, op: Op, r: Graph) {
    match op
    case CreateNode(labels, properties) =>
      && NodeAt(g, g.nextNode) == None && NodeAt(r, g.nextNode) == Some(Node(g.nextNode, labels, properties))
      && SameNodesBut(g, r, g.nextNode) && r.edges == g.edges
      && r.nextNode == g.nextNode + 1 && r.nextEdge == g.nextEdge
    case UpdateNode(n) =>
      && NodeAt(r, n.id) == Some(n) && SameNodesBut(g, r, n.id) && r.edges == g.edges
      && r.nextNode == g.nextNode && r.nextEdge == g.nextEdge
    case DeleteNode(id, detach) =>
      && r.nextNode == g.nextNode && r.nextEdge == g.nextEdge
      && if NodeAt(g, id) == None || (!detach && Connected(g, id)) then r == g else
           && NodeAt(r, id) == None && SameNodesBut(g, r, id)
           && forall i: Id :: EdgeAt(r, i) ==
                if i in g.edges && (g.edges[i].src == id || g.edges[i].dst == id) then None else EdgeAt(g, i)
    case CreateEdge(t, src, dst, properties) =>
      if NodeAt(g, src) == None || NodeAt(g, dst) == None then r == g else
        && EdgeAt(g, g.nextEdge) == None && EdgeAt(r, g.nextEdge) == Some(Edge(g.nextEdge, t, src, dst, properties))
        && SameEdgesBut(g, r, g.nextEdge) && r.nodes == g.nodes
        && r.nextNode == g.nextNode && r.nextEdge == g.nextEdge + 1
    case UpdateEdge(e) =>
      && EdgeAt(r, e.id) == Some(e) && SameEdgesBut(g, r, e.id) && r.nodes == g.nodes
      && r.nextNode == g.nextNode && r.nextEdge == g.nextEdge
    case RemoveEdge(id) =>
      && EdgeAt(r, id) == None && SameEdgesBut(g, r, id) && r.nodes == g.nodes
      && r.nextNode == g.nextNode && r.nextEdge == g.nextEdge
  }

  /** Edges are listed at a node exactly when it is an end of one. */
  lemma ListedIffConnected(g: Graph, id: Id)
    requires Inv(g)
    ensures (EdgesAt(g, Out, id, None) != [] || EdgesAt(g, In, id, None) != []) <==> Connected(g, id)
  {
    hide EdgesAt, AdjInv;
    EdgesAtExact(g, Out, id, None);
    EdgesAtExact(g, In, id, None);
    var out, in_ := EdgesAt(g, Out, id, None), EdgesAt(g, In, id, None);
    if out != [] {
      assert out[0] in out && Answers(g, Out, id, None, out[0]);
    }
    if in_ != [] {
      assert in_[0] in in_ && Answers(g, In, id, None, in_[0]);
    }
    if Connected(g, id) {
      var i :| i in g.edges && (g.edges[i].src == id || g.edges[i].dst == id);
      assert Answers(g, Out, id, None, g.edges[i]) || Answers(g, In, id, None, g.edges[i]);
    }
  }

  lemma DetachCounters(g: Graph, id: Id)
    requires Inv(g)
    ensures DetachDelete(g, id).nextNode == g.nextNode && DetachDelete(g, id).nextEdge == g.nextEdge
  {
    hide EdgesAt, DeleteEdges, Inv;
    DeleteEdgesKeep(g, EdgesAt(g, Out, id, None) + EdgesAt(g, In, id, None));
  }

  /**
   * In a consistent store every operation does what it is asked to and nothing else: a new node or
   * edge has an id no other had, a refused operation changes nothing, and deleting a node takes
   * exactly its edges along.
   */
  lemma StepEffect(g: Graph, op: Op)
    requires Inv(g) && Allowed(g, op)
    ensures Effect(g, op, Step(g, op))
  {
    hide AdjInv, EdgesAt, DetachDelete, Put, Delete, AdjKey, Connected;
    if op.DeleteNode? {
      ListedIffConnected(g, op.nodeId);
      DetachCounters(g, op.nodeId);
      DetachDeleteKeeps(g, op.nodeId);
    }
  }

  // ---------------------------------------------------------------- what the adjacency maps hold

  /** Under each edge's key an adjacency map holds the other end. */
  ghost predicate HoldsFarEnds(g: Graph) {
    forall d: Side, i :: i in g.edges ==>
      var m := MapOf(Adjacency(g, d));
      EdgeKey(g.edges[i], d) in m && m[EdgeKey(g.edges[i], d)] == ToBe(FarEnd(g.edges[i], d), 8)
  }

  function FarEnd(e: Edge, d: Side): Id {
    if d.Out? then e.dst else e.src
  }

  lemma SaveEdgeHolds(g: Graph, e: Edge)
    requires Inv(g) && HoldsFarEnds(g) && NulFree(e.edgeType)
    ensures HoldsFarEnds(SaveEdge(g, e))
  {
    hide AdjKey, Put, MapOf, Sorted, EdgeKeys, Less, ToBe;
    var r := SaveEdge(g, e);
    forall d: Side, i | i in r.edges
      ensures var m := MapOf(Adjacency(r, d));
              EdgeKey(r.edges[i], d) in m && m[EdgeKey(r.edges[i], d)] == ToBe(FarEnd(r.edges[i], d), 8)
    {
      assert Sorted(Adjacency(g, d));
      PutIsMapUpdate(Adjacency(g, d), EdgeKey(e, d), ToBe(FarEnd(e, d), 8));
      if i != e.id && EdgeKey(r.edges[i], d) == EdgeKey(e, d) {
        AdjKeyInjective(End(r.edges[i], d), r.edges[i], End(e, d), e);
      }
    }
  }

  lemma DeleteEdgeHolds(g: Graph, id: Id)
    requires Inv(g) && HoldsFarEnds(g)
    ensures HoldsFarEnds(DeleteEdge(g, id))
  {
    hide AdjKey, Delete, MapOf, Sorted, EdgeKeys, Less, ToBe;
    var r := DeleteEdge(g, id);
    if id in g.edges {
      var e := g.edges[id];
      forall d: Side, i | i in r.edges
        ensures var m := MapOf(Adjacency(r, d));
                EdgeKey(r.edges[i], d) in m && m[EdgeKey(r.edges[i], d)] == ToBe(FarEnd(r.edges[i], d), 8)
      {
        assert Sorted(Adjacency(g, d));
        DeleteIsMapRemove(Adjacency(g, d), EdgeKey(e, d));
        if EdgeKey(r.edges[i], d) == EdgeKey(e, d) {
          AdjKeyInjective(End(r.edges[i], d), r.edges[i], End(e, d), e);
        }
      }
    }
  }

  lemma {:induction false} DeleteEdgesHold(g: Graph, es: seq<Edge>)
    requires Inv(g) && HoldsFarEnds(g)
    ensures HoldsFarEnds(DeleteEdges(g, es))
  {
    hide Inv, HoldsFarEnds, DeleteEdge;
    if es != [] {
      var front := es[..|es| - 1];
      DeleteEdgesHold(g, front);
      DeleteEdgesKeep(g, front);
      DeleteEdgeHolds(DeleteEdges(g, front), es[|es| - 1].id);
    }
  }

  /** Nodes and counters do not matter to what the adjacency maps hold. */
  lemma SameEdgesHold(g: Graph, r: Graph)
    requires HoldsFarEnds(g) && r.edges == g.edges && r.adjOut == g.adjOut && r.adjIn == g.adjIn
    ensures HoldsFarEnds(r)
  {
    hide MapOf, ToBe, AdjKey;
    assert forall d: Side :: Adjacency(r, d) == Adjacency(g, d);
  }

  lemma StepHolds(g: Graph, op: Op)
    requires Inv(g) && HoldsFarEnds(g) && Allowed(g, op)
    ensures HoldsFarEnds(Step(g, op))
  {
    hide AdjInv, HoldsFarEnds, EdgesAt, DeleteEdges, DeleteEdge, SaveEdge;
    match op
    case CreateNode(_, _) => SameEdgesHold(g, Step(g, op));
    case UpdateNode(_) => SameEdgesHold(g, Step(g, op));
    case DeleteNode(id, detach) =>
      var es := EdgesAt(g, Out, id, None) + EdgesAt(g, In, id, None);
      DeleteEdgesHold(g, es);
      var h := DeleteEdges(g, es);
      SameEdgesHold(h, h.(nodes := h.nodes - {id}));
    case CreateEdge(t, src, dst, properties) =>
      if src in g.nodes && dst in g.nodes {
        var h := g.(nextEdge := g.nextEdge + 1);
        SameEdgesHold(g, h);
        CountersKeep(g, g.nextNode, g.nextEdge + 1);
        SaveEdgeHolds(h, Edge(g.nextEdge, t, src, dst, properties));
      }
    case UpdateEdge(e) => SaveEdgeHolds(g, e);
    case RemoveEdge(id) => DeleteEdgeHolds(g, id);
  }

  lemma {:induction false} RunHolds(g: Graph, ops: seq<Op>, r: Graph)
    requires Inv(g) && HoldsFarEnds(g) && Run(g, ops, r)
    ensures Inv(r) && HoldsFarEnds(r)
    decreases ops
  {
    hide Inv, HoldsFarEnds, Allowed, Step;
    if ops != [] {
      StepKeeps(g, ops[0]);
      StepHolds(g, ops[0]);
      RunHolds(Step(g, ops[0]), ops[1..], r);
    }
  }

  /** In every reached store each adjacency entry of an edge holds the edge's other end. */
  lemma FarEndsHeld(ops: seq<Op>, g: Graph)
    requires Run(EMPTY, ops, g)
    ensures HoldsFarEnds(g)
  {
    hide Inv, Run;
    EmptyInv();
    RunHolds(EMPTY, ops, g);
  }

  // ---------------------------------------------------------------- over runs

  /** The operation has nothing to do with the node of this id. */
  ghost predicate Spares(op: Op, id: Id) {
    match op
    case UpdateNode(n) => n.id != id
    case DeleteNode(i, _) => i != id
    case _ => true
  }

  /** What was stored for a node is found until an operation names it, whatever else is created. */
  lemma {:induction false} NodeStays(g: Graph, ops: seq<Op>, r: Graph, id: Id)
    requires Inv(g) && Run(g, ops, r) && id in g.nodes && forall op :: op in ops ==> Spares(op, id)
    ensures NodeAt(r, id) == NodeAt(g, id)
    decreases ops
  {
    hide Inv, Step, Allowed;
    if ops != [] {
      assert ops[0] in ops;
      StepKeeps(g, ops[0]);
      StepEffect(g, ops[0]);
      StepSpares(g, ops[0], Step(g, ops[0]), id);
      NodeStays(Step(g, ops[0]), ops[1..], r, id);
    }
  }

  lemma StepSpares(g: Graph, op: Op, r: Graph, id: Id)
    requires Effect(g, op, r) && id in g.nodes && Spares(op, id)
    ensures NodeAt(r, id) == NodeAt(g, id)
  {
  }
}
