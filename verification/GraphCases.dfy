/** Small stores reached by a few operations, and what an edge saved with other ends does to one. */
module GraphCases {
  import opened Bytes
  import opened SortedEntries
  import opened Encoding
  import opened TreeScan
  import opened GraphStore

  function Plain(id: Id): (n: Node) {
    Node(id, [], map[])
  }

  /** Three nodes and an edge of the given type from the first to the second. */
  function Small(t: EdgeType): (g: Graph) {
    SaveEdge(Graph(map[1 := Plain(1), 2 := Plain(2), 3 := Plain(3)], map[], [], [], 4, 2), Edge(1, t, 1, 2, map[]))
  }

  function SmallOps(t: EdgeType): (ops: seq<Op>) {
    [CreateNode([], map[]), CreateNode([], map[]), CreateNode([], map[]), CreateEdge(t, 1, 2, map[])]
  }

  lemma Stepped(g: Graph, op: Op, h: Graph, ops: seq<Op>, r: Graph)
    requires Allowed(g, op) && Step(g, op) == h && Run(h, ops, r)
    ensures Run(g, [op] + ops, r)
  {
    hide Allowed, Step;
    assert ([op] + ops)[1..] == ops;
  }

  lemma SmallReached(t: EdgeType)
    requires NulFree(t)
    ensures Run(EMPTY, SmallOps(t), Small(t)) && Inv(Small(t))
  {
    hide Put, AdjKey, Inv, Run;
    var node := CreateNode([], map[]);
    var g1 := Graph(map[1 := Plain(1)], map[], [], [], 2, 1);
    var g2 := Graph(map[1 := Plain(1), 2 := Plain(2)], map[], [], [], 3, 1);
    var g3 := Graph(map[1 := Plain(1), 2 := Plain(2), 3 := Plain(3)], map[], [], [], 4, 1);
    var edge := CreateEdge(t, 1, 2, map[]);
    Stays(Small(t));
    Stepped(g3, edge, Small(t), [], Small(t));
    Stepped(g2, node, g3, [edge] + [], Small(t));
    Stepped(g1, node, g2, [node] + ([edge] + []), Small(t));
    Stepped(EMPTY, node, g1, [node] + ([node] + ([edge] + [])), Small(t));
    assert SmallOps(t) == [node] + ([node] + ([node] + ([edge] + [])));
    EmptyInv();
    RunKeeps(EMPTY, SmallOps(t), Small(t));
  }

  lemma Stays(g: Graph)
    ensures Run(g, [], g)
  {
  }

  // ---------------------------------------------------------------- an edge saved with another end

  lemma {:induction false} CollectHas(es: seq<Entry>, x: Entry, edges: map<Id, Edge>)
    requires x in es
    ensures forall e :: e in Named(x, edges) ==> e in Collect(es, edges)
  {
    hide Named;
    if es[|es| - 1] != x {
      assert es == es[..|es| - 1] + [es[|es| - 1]];
      CollectHas(es[..|es| - 1], x, edges);
    }
  }

  /** The key under which a stored edge was filed survives saving an edge under the same id. */
  lemma OldEntryStays(g: Graph, e: Edge) returns (x: Entry)
    requires Inv(g) && e.id in g.edges
    ensures x in SaveEdge(g, e).adjIn && x.key == EdgeKey(g.edges[e.id], In)
  {
    hide AdjKey, MapOf, Put, Less, ToBe;
    var o, r := g.edges[e.id], SaveEdge(g, e);
    assert Sorted(Adjacency(g, In)) && MapOf(Adjacency(g, In)).Keys == EdgeKeys(g.edges, In);
    PutIsMapUpdate(g.adjIn, AdjKey(e.dst, e), ToBe(e.src, 8));
    assert EdgeKey(o, In) in EdgeKeys(g.edges, In);
    assert EdgeKey(o, In) in MapOf(r.adjIn);
    MapKeys(r.adjIn, EdgeKey(o, In));
    x :| x in r.adjIn && x.key == EdgeKey(o, In);
  }

  /** An edge saved again with another destination is still listed at its former one, where it no longer ends. */
  lemma MovedEdgeListed(g: Graph, e: Edge)
    requires Inv(g) && e.id in g.edges && e.dst != g.edges[e.id].dst
    ensures var r, n := SaveEdge(g, e), g.edges[e.id].dst;
            e in EdgesAt(r, In, n, None) && !Answers(r, In, n, None, e)
  {
    hide AdjKey, EncodeAdjKey, DecodeAdjKey, Collect, Less, Put;
    var o, r := g.edges[e.id], SaveEdge(g, e);
    var x := OldEntryStays(g, e);
    var q := Prefix(EncodeAdjKey(o.dst, None, None));
    PrefixMeansEdge(o.dst, o, o.dst, None);
    SelectMembers(r.adjIn, q);
    AdjKeyRoundTrip(o.dst, o);
    CollectHas(Select(r.adjIn, q), x, r.edges);
  }

  /** Concretely: an edge from node 1 to node 2, saved with destination 3, is listed among those entering node 2. */
  lemma MovedEdge()
    ensures var g := Small([65]);
            var e := Edge(1, [65], 1, 3, map[]);
            && Run(EMPTY, SmallOps([65]), g) && Inv(g)
            && g.edges == map[1 := Edge(1, [65], 1, 2, map[])]
            && e in EdgesAt(SaveEdge(g, e), In, 2, None) && SaveEdge(g, e).edges == map[1 := e]
            && !Inv(SaveEdge(g, e))
  {
    hide Put, AdjKey, Inv, Run, EdgesAt;
    SmallReached([65]);
    var g, e := Small([65]), Edge(1, [65], 1, 3, map[]);
    MovedEdgeListed(g, e);
    SaveEdgeKeepsIff(g, e);
  }
}
