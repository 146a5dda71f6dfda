/**
 * The graph store: nodes, edges, and two adjacency maps whose keys encode an end, a type and an
 * edge id. The adjacency maps must always agree with the edges.
 */
module GraphStore {
  import opened Bytes
  import opened SortedEntries
  import opened Encoding
  import opened TreeScan

  type Id = x: int | 0 <= x < 0x1_0000_0000_0000_0000

  /** An edge type as its UTF-8 bytes. */
  type EdgeType = seq<Byte>

  datatype Node = Node(id: Id, labels: seq<string>, properties: map<string, Value>)

  datatype Edge = Edge(id: Id, edgeType: EdgeType, src: Id, dst: Id, properties: map<string, Value>)

  /** Adjacency maps are sorted entry lists, the contents of the storage maps that hold them. */
  datatype Graph = Graph(
    nodes: map<Id, Node>,
    edges: map<Id, Edge>,
    adjOut: seq<Entry>,
    adjIn: seq<Entry>,
    nextNode: Id,
    nextEdge: Id)

  // ---------------------------------------------------------------- adjacency keys

  predicate NulFree(t: EdgeType) {
    0 !in t
  }

  function EncodeAdjKey(node: Id, edgeType: Option<EdgeType>, edge: Option<Id>): (k: Key) {
    var end := ToBe(node, 8);
    match edgeType
    case Some(t) => end + [0x01] + t + [0x00] + (if edge.Some? then ToBe(edge.value, 8) else [])
    case None => if edge.Some? then end + [0x02] + ToBe(edge.value, 8) else end
  }

  /** The key of an edge at one of its ends. */
  function AdjKey(end: Id, e: Edge): (k: Key) {
    EncodeAdjKey(end, Some(e.edgeType), Some(e.id))
  }

  /** The first zero byte at or after pos, or the end. */
  function FindNul(bs: seq<Byte>, pos: nat): (n: nat)
    requires pos <= |bs|
    ensures pos <= n <= |bs| && (n < |bs| ==> bs[n] == 0)
    ensures forall i :: pos <= i < n ==> bs[i] != 0
    decreases |bs| - pos
  {
    if pos < |bs| && bs[pos] != 0 then FindNul(bs, pos + 1) else pos
  }

  datatype AdjEntry = AdjEntry(node: nat, edgeType: EdgeType, edge: nat)

  function DecodeAdjKey(bs: Key): (r: Option<AdjEntry>) {
    if |bs| <= 8 then None
    else if bs[8] == 0x01 then
      var pos := FindNul(bs, 9);
      if pos < |bs| && |bs| >= pos + 9 then Some(AdjEntry(FromBe(bs[..8]), bs[9..pos], FromBe(bs[pos + 1..pos + 9]))) else None
    else if bs[8] == 0x02 && |bs| >= 17 then Some(AdjEntry(FromBe(bs[..8]), [], FromBe(bs[9..17])))
    else None
  }

  /** Decodes a key as the program does, scanning for the terminator. */
  method ScanAdjKey(bs: Key) returns (r: Option<AdjEntry>)
    ensures r == DecodeAdjKey(bs)
  {
    hide FromBe;
    if |bs| <= 8 { return None; }
    var node := FromBe(bs[..8]);
    if bs[8] == 0x01 {
      var pos := 9;
      while pos < |bs| && bs[pos] != 0
        invariant 9 <= pos <= |bs|
        invariant FindNul(bs, pos) == FindNul(bs, 9)
      {
        pos := pos + 1;
      }
      if pos < |bs| && |bs| >= pos + 9 {
        return Some(AdjEntry(node, bs[9..pos], FromBe(bs[pos + 1..pos + 9])));
      }
    } else if bs[8] == 0x02 && |bs| >= 17 {
      return Some(AdjEntry(node, [], FromBe(bs[9..17])));
    }
    return None;
  }

  lemma IdRoundTrip(id: Id)
    ensures FromBe(ToBe(id, 8)) == id
  {
    Powers();
    BeRoundTrip(id, 8);
  }

  /** Decoding an adjacency key gives back the end, the type and the edge it was made from. */
  lemma AdjKeyRoundTrip(end: Id, e: Edge)
    requires NulFree(e.edgeType)
    ensures DecodeAdjKey(AdjKey(end, e)) == Some(AdjEntry(end, e.edgeType, e.id))
  {
    hide ToBe, FromBe;
    var k, t := AdjKey(end, e), e.edgeType;
    var n := 9 + |t|;
    assert |k| == n + 9 && k[8] == 0x01 && k[n] == 0;
    assert k[..8] == ToBe(end, 8) && k[9..n] == t && k[n + 1..n + 9] == ToBe(e.id, 8);
    assert forall i :: 9 <= i < n ==> k[i] == t[i - 9] && t[i - 9] in t;
    NulAt(k, 9, n);
    IdRoundTrip(end);
    IdRoundTrip(e.id);
  }

  /** A key without a type gives back end and edge; a prefix without an edge is no key. */
  lemma OtherKeys(end: Id, id: Id, t: EdgeType)
    requires NulFree(t)
    ensures DecodeAdjKey(EncodeAdjKey(end, None, Some(id))) == Some(AdjEntry(end, [], id))
    ensures DecodeAdjKey(EncodeAdjKey(end, None, None)) == None && DecodeAdjKey(EncodeAdjKey(end, Some(t), None)) == None
  {
    hide ToBe, FromBe;
    var k, p := EncodeAdjKey(end, None, Some(id)), EncodeAdjKey(end, Some(t), None);
    var n := 9 + |t|;
    assert k[..8] == ToBe(end, 8) && k[9..17] == ToBe(id, 8);
    assert p[8] == 0x01 && p[n] == 0 && |p| == n + 1;
    assert forall i :: 9 <= i < n ==> p[i] == t[i - 9] && t[i - 9] in t;
    NulAt(p, 9, n);
    IdRoundTrip(end);
    IdRoundTrip(id);
  }

  lemma {:induction false} NulAt(bs: seq<Byte>, pos: nat, n: nat)
    requires pos <= n < |bs| && bs[n] == 0 && forall i :: pos <= i < n ==> bs[i] != 0
    ensures FindNul(bs, pos) == n
    decreases n - pos
  {
    if pos < n {
      NulAt(bs, pos + 1, n);
    }
  }

  lemma AdjKeyInjective(end: Id, e: Edge, end': Id, e': Edge)
    requires NulFree(e.edgeType) && NulFree(e'.edgeType)
    requires AdjKey(end, e) == AdjKey(end', e')
    ensures end == end' && e.edgeType == e'.edgeType && e.id == e'.id
  {
    hide AdjKey, DecodeAdjKey;
    AdjKeyRoundTrip(end, e);
    AdjKeyRoundTrip(end', e');
  }

  /** An edge's key has a query's prefix exactly when the edge has that end and type. */
  lemma PrefixMeansEdge(end: Id, e: Edge, n: Id, t: Option<EdgeType>)
    requires NulFree(e.edgeType) && (t.Some? ==> NulFree(t.value))
    ensures EncodeAdjKey(n, t, None) <= AdjKey(end, e) <==> end == n && (t.Some? ==> e.edgeType == t.value)
  {
    hide ToBe, FromBe;
    var k, p := AdjKey(end, e), EncodeAdjKey(n, t, None);
    assert k[..8] == ToBe(end, 8) && p[..8] == ToBe(n, 8);
    IdRoundTrip(end);
    IdRoundTrip(n);
    if p <= k {
      assert k[..8] == p[..8];
      if t.Some? {
        SameType(k, p, e, t.value);
      }
    }
  }

  lemma SameType(k: Key, p: Key, e: Edge, t: EdgeType)
    requires NulFree(e.edgeType) && NulFree(t) && p <= k
    requires |p| == 10 + |t| && p[9..9 + |t|] == t && p[9 + |t|] == 0
    requires |k| == 18 + |e.edgeType| && k[9..9 + |e.edgeType|] == e.edgeType && k[9 + |e.edgeType|] == 0
    ensures e.edgeType == t
  {
    var a, b := |e.edgeType|, |t|;
    assert forall i :: 9 <= i < 9 + a ==> k[i] == e.edgeType[i - 9] && e.edgeType[i - 9] in e.edgeType;
    assert forall i :: 9 <= i < 9 + b ==> k[i] == p[i] == t[i - 9] && t[i - 9] in t;
    NulAt(k, 9, 9 + a);
    NulAt(k, 9, 9 + b);
    assert k[9..9 + a] == p[9..9 + b];
  }

  // ---------------------------------------------------------------- operations

  function SaveNode(g: Graph, n: Node): (r: Graph) {
    g.(nodes := g.nodes[n.id := n])
  }

  function SaveEdge(g: Graph, e: Edge): (r: Graph) {
    g.(edges := g.edges[e.id := e],
       adjOut := Put(g.adjOut, AdjKey(e.src, e), ToBe(e.dst, 8)),
       adjIn := Put(g.adjIn, AdjKey(e.dst, e), ToBe(e.src, 8)))
  }

  function DeleteEdge(g: Graph, id: Id): (r: Graph) {
    if id !in g.edges then g else
      var e := g.edges[id];
      g.(edges := g.edges - {id},
         adjOut := Delete(g.adjOut, AdjKey(e.src, e)),
         adjIn := Delete(g.adjIn, AdjKey(e.dst, e)))
  }

  function DeleteEdges(g: Graph, es: seq<Edge>): (r: Graph) {
    if es == [] then g else DeleteEdge(DeleteEdges(g, es[..|es| - 1]), es[|es| - 1].id)
  }

  // ---------------------------------------------------------------- the invariant

  /** Nodes and edges are filed under their ids, ids are allocated, and edges end at nodes. */
  ghost predicate TablesInv(g: Graph) {
    && (forall n :: n in g.nodes ==> g.nodes[n].id == n && n < g.nextNode)
    && (forall i :: i in g.edges ==>
          var e := g.edges[i];
          e.id == i && i < g.nextEdge && NulFree(e.edgeType) && e.src in g.nodes && e.dst in g.nodes)
  }

  /** Which end of an edge an adjacency map is keyed by. */
  datatype Side = Out | In

  function End(e: Edge, d: Side): Id {
    if d.Out? then e.src else e.dst
  }

  function EdgeKey(e: Edge, d: Side): (k: Key) {
    AdjKey(End(e, d), e)
  }

  function Adjacency(g: Graph, d: Side): seq<Entry> {
    if d.Out? then g.adjOut else g.adjIn
  }

  ghost function EdgeKeys(edges: map<Id, Edge>, d: Side): set<Key> {
    set i | i in edges :: EdgeKey(edges[i], d)
  }

  /** The adjacency maps hold the keys of the edges and nothing else. */
  ghost predicate AdjInv(g: Graph) {
    forall d: Side :: Sorted(Adjacency(g, d)) && MapOf(Adjacency(g, d)).Keys == EdgeKeys(g.edges, d)
  }

  ghost predicate Inv(g: Graph) {
    TablesInv(g) && AdjInv(g)
  }

  lemma EdgeKeysPut(edges: map<Id, Edge>, e: Edge, d: Side)
    requires e.id in edges ==> End(edges[e.id], d) == End(e, d) && edges[e.id].edgeType == e.edgeType && edges[e.id].id == e.id
    ensures EdgeKeys(edges[e.id := e], d) == EdgeKeys(edges, d) + {EdgeKey(e, d)}
  {
    hide EncodeAdjKey;
    var m := edges[e.id := e];
    forall k | k in EdgeKeys(edges, d) ensures k in EdgeKeys(m, d) {
      var i :| i in edges && k == EdgeKey(edges[i], d);
      assert i in m;
    }
    assert e.id in m;
  }

  /** Saving an edge that is new, or that keeps its ends and type, keeps the store consistent. */
  lemma SaveEdgeKeeps(g: Graph, e: Edge)
    requires Inv(g) && NulFree(e.edgeType) && e.id < g.nextEdge && e.src in g.nodes && e.dst in g.nodes
    requires e.id in g.edges ==>
               g.edges[e.id].src == e.src && g.edges[e.id].dst == e.dst && g.edges[e.id].edgeType == e.edgeType
    ensures Inv(SaveEdge(g, e))
  {
    hide AdjKey, Put, MapOf, Sorted, EdgeKeys, Less, ToBe;
    var r := SaveEdge(g, e);
    forall d: Side
      ensures Sorted(Adjacency(r, d)) && MapOf(Adjacency(r, d)).Keys == EdgeKeys(r.edges, d)
    {
      assert Sorted(Adjacency(g, d)) && MapOf(Adjacency(g, d)).Keys == EdgeKeys(g.edges, d);
      var v := ToBe(if d.Out? then e.dst else e.src, 8);
      PutIsMapUpdate(Adjacency(g, d), EdgeKey(e, d), v);
      PutSorted(Adjacency(g, d), EdgeKey(e, d), v);
      EdgeKeysPut(g.edges, e, d);
    }
  }

  /** A key that was there before an edge was saved is the key of some edge afterwards. */
  lemma OldKeyRemains(g: Graph, e: Edge, d: Side)
    requires Inv(g) && Inv(SaveEdge(g, e)) && e.id in g.edges && NulFree(e.edgeType)
    ensures End(g.edges[e.id], d) == End(e, d) && g.edges[e.id].edgeType == e.edgeType
  {
    hide AdjKey, Put, MapOf, Sorted, Less, ToBe;
    var r, o := SaveEdge(g, e), g.edges[e.id];
    PutIsMapUpdate(Adjacency(g, d), EdgeKey(e, d), ToBe(if d.Out? then e.dst else e.src, 8));
    assert MapOf(Adjacency(g, d)).Keys == EdgeKeys(g.edges, d);
    assert EdgeKey(o, d) in EdgeKeys(g.edges, d);
    assert MapOf(Adjacency(r, d)).Keys == EdgeKeys(r.edges, d);
    assert EdgeKey(o, d) in EdgeKeys(r.edges, d);
    var i :| i in r.edges && EdgeKey(r.edges[i], d) == EdgeKey(o, d);
    AdjKeyInjective(End(r.edges[i], d), r.edges[i], End(o, d), o);
  }

  /**
   * Saving an allocated edge keeps the store consistent if and only if both ends exist and an edge
   * already stored under its id has the same ends and type; otherwise the old adjacency key stays.
   */
  lemma SaveEdgeKeepsIff(g: Graph, e: Edge)
    requires Inv(g) && NulFree(e.edgeType) && e.id < g.nextEdge
    ensures Inv(SaveEdge(g, e)) <==>
            && e.src in g.nodes && e.dst in g.nodes
            && (e.id in g.edges ==>
                  g.edges[e.id].src == e.src && g.edges[e.id].dst == e.dst && g.edges[e.id].edgeType == e.edgeType)
  {
    hide AdjInv, AdjKey, Put;
    var r := SaveEdge(g, e);
    if Inv(r) {
      assert e.id in r.edges && r.edges[e.id] == e;
      if e.id in g.edges {
        OldKeyRemains(g, e, Out);
        OldKeyRemains(g, e, In);
      }
    } else if e.src in g.nodes && e.dst in g.nodes
        && (e.id in g.edges ==>
              g.edges[e.id].src == e.src && g.edges[e.id].dst == e.dst && g.edges[e.id].edgeType == e.edgeType) {
      SaveEdgeKeeps(g, e);
    }
  }

  /** Without one edge, exactly that edge's key is gone. */
  lemma KeysWithout(g: Graph, id: Id, d: Side)
    requires TablesInv(g) && id in g.edges
    ensures EdgeKeys(g.edges - {id}, d) == EdgeKeys(g.edges, d) - {EdgeKey(g.edges[id], d)}
  {
    hide AdjKey;
    var e, rest := g.edges[id], g.edges - {id};
    forall i | i in rest ensures EdgeKey(rest[i], d) != EdgeKey(e, d) {
      if EdgeKey(rest[i], d) == EdgeKey(e, d) {
        AdjKeyInjective(End(rest[i], d), rest[i], End(e, d), e);
      }
    }
    forall k | k in EdgeKeys(g.edges, d) && k != EdgeKey(e, d) ensures k in EdgeKeys(rest, d) {
      var i :| i in g.edges && k == EdgeKey(g.edges[i], d);
      assert i in rest;
    }
  }

  lemma DeleteEdgeKeeps(g: Graph, id: Id)
    requires Inv(g)
    ensures Inv(DeleteEdge(g, id))
    ensures DeleteEdge(g, id).edges == g.edges - {id} && DeleteEdge(g, id).nodes == g.nodes
  {
    hide AdjKey, Delete, MapOf, Sorted, Less, EdgeKeys;
    if id in g.edges {
      var r := DeleteEdge(g, id);
      forall d: Side
        ensures Sorted(Adjacency(r, d)) && MapOf(Adjacency(r, d)).Keys == EdgeKeys(r.edges, d)
      {
        assert Sorted(Adjacency(g, d)) && MapOf(Adjacency(g, d)).Keys == EdgeKeys(g.edges, d);
        DeleteIsMapRemove(Adjacency(g, d), EdgeKey(g.edges[id], d));
        KeysWithout(g, id, d);
      }
    }
  }

  // ---------------------------------------------------------------- queries

  /** The edges that a list of adjacency entries names, in order. */
  function Collect(es: seq<Entry>, edges: map<Id, Edge>): (r: seq<Edge>) {
    if es == [] then [] else Collect(es[..|es| - 1], edges) + Named(es[|es| - 1], edges)
  }

  /** The edge an adjacency entry names, if it decodes and the edge is there. */
  function Named(x: Entry, edges: map<Id, Edge>): (r: seq<Edge>) {
    match DecodeAdjKey(x.key)
    case Some(a) => if a.edge < 0x1_0000_0000_0000_0000 && a.edge in edges then [edges[a.edge]] else []
    case None => []
  }

  function EdgesAt(g: Graph, d: Side, n: Id, t: Option<EdgeType>): (r: seq<Edge>) {
    Collect(Select(Adjacency(g, d), Prefix(EncodeAdjKey(n, t, None))), g.edges)
  }

  ghost predicate DistinctIds(es: seq<Edge>) {
    forall i, j :: 0 <= i < j < |es| ==> es[i].id != es[j].id
  }

  /** The edge is stored, has the given end, and has the given type if one is asked for. */
  ghost predicate Answers(g: Graph, d: Side, n: Id, t: Option<EdgeType>, e: Edge) {
    e.id in g.edges && g.edges[e.id] == e && End(e, d) == n && (t.Some? ==> e.edgeType == t.value)
  }

  lemma {:induction false} SelectMembers(es: seq<Entry>, q: Query)
    ensures forall x :: x in Select(es, q) <==> x in es && Matches(q, x.key)
    ensures Sorted(es) ==> Sorted(Select(es, q))
  {
    hide Matches, Less;
    if es != [] {
      SelectMembers(es[1..], q);
      assert forall x :: x in es <==> x == es[0] || x in es[1..];
      if Sorted(es) {
        assert Sorted(es[1..]);
        forall x | x in Select(es[1..], q) ensures Less(es[0].key, x.key) {
          assert x in es[1..];
        }
      }
    }
  }

  /** Every adjacency entry names the stored edge its key was made from. */
  lemma EntryNames(g: Graph, d: Side, x: Entry)
    requires Inv(g) && x in Adjacency(g, d)
    ensures exists i :: i in g.edges && x.key == EdgeKey(g.edges[i], d) && Named(x, g.edges) == [g.edges[i]]
  {
    hide AdjKey, MapOf, Less, DecodeAdjKey;
    MapKeys(Adjacency(g, d), x.key);
    assert x.key in EdgeKeys(g.edges, d);
    var i :| i in g.edges && x.key == EdgeKey(g.edges[i], d);
    AdjKeyRoundTrip(End(g.edges[i], d), g.edges[i]);
    assert Named(x, g.edges) == [g.edges[i]];
  }

  /** Collecting distinct adjacency entries gives their edges, each once. */
  lemma {:induction false} CollectNames(g: Graph, d: Side, es: seq<Entry>)
    requires Inv(g) && Sorted(es) && forall x :: x in es ==> x in Adjacency(g, d)
    ensures DistinctIds(Collect(es, g.edges))
    ensures forall e :: e in Collect(es, g.edges) <==>
              e.id in g.edges && g.edges[e.id] == e && exists x :: x in es && x.key == EdgeKey(e, d)
  {
    hide AdjKey, Less, AdjInv, Named;
    if es != [] {
      var front, last := es[..|es| - 1], es[|es| - 1];
      assert forall x :: x in front ==> x in es;
      CollectNames(g, d, front);
      EntryNames(g, d, last);
      var i :| i in g.edges && last.key == EdgeKey(g.edges[i], d) && Named(last, g.edges) == [g.edges[i]];
      var e := g.edges[i];
      forall f | f in Collect(front, g.edges) ensures f.id != e.id {
        var x :| x in front && x.key == EdgeKey(f, d);
        assert Less(x.key, last.key);
      }
      forall f: Edge | f.id in g.edges && g.edges[f.id] == f && EdgeKey(f, d) == last.key ensures f == e {
        AdjKeyInjective(End(f, d), f, End(e, d), e);
      }
      assert forall x :: x in es <==> x in front || x == last;
    }
  }

  /**
   * In a consistent store the edges listed at a node are exactly the stored edges with that end
   * and type, each once.
   */
  lemma EdgesAtExact(g: Graph, d: Side, n: Id, t: Option<EdgeType>)
    requires Inv(g) && (t.Some? ==> NulFree(t.value))
    ensures DistinctIds(EdgesAt(g, d, n, t))
    ensures forall e :: e in EdgesAt(g, d, n, t) <==> Answers(g, d, n, t, e)
  {
    hide AdjKey, Less, Collect, EncodeAdjKey, MapOf;
    var q := Prefix(EncodeAdjKey(n, t, None));
    var es := Select(Adjacency(g, d), q);
    SelectMembers(Adjacency(g, d), q);
    assert Sorted(Adjacency(g, d));
    CollectNames(g, d, es);
    forall e: Edge | e.id in g.edges && g.edges[e.id] == e
      ensures (exists x :: x in es && x.key == EdgeKey(e, d)) <==> Answers(g, d, n, t, e)
    {
      PrefixMeansEdge(End(e, d), e, n, t);
      assert EdgeKey(e, d) in EdgeKeys(g.edges, d);
      assert MapOf(Adjacency(g, d)).Keys == EdgeKeys(g.edges, d);
      MapKeys(Adjacency(g, d), EdgeKey(e, d));
      var x :| x in Adjacency(g, d) && x.key == EdgeKey(e, d);
      assert x in es <==> Matches(q, x.key);
    }
  }

  // ---------------------------------------------------------------- runs

  function EdgeIds(es: seq<Edge>): set<Id> {
    set e | e in es :: e.id
  }

  /** Deleting a list of edges, repeated ones included, removes exactly those. */
  lemma {:induction false} DeleteEdgesKeep(g: Graph, es: seq<Edge>)
    requires Inv(g)
    ensures Inv(DeleteEdges(g, es))
    ensures DeleteEdges(g, es).edges == g.edges - EdgeIds(es)
    ensures DeleteEdges(g, es).nodes == g.nodes
    ensures DeleteEdges(g, es).nextNode == g.nextNode && DeleteEdges(g, es).nextEdge == g.nextEdge
  {
    hide Inv, DeleteEdge;
    if es == [] {
      assert g.edges - EdgeIds([]) == g.edges;
    } else {
      var front, last := es[..|es| - 1], es[|es| - 1];
      DeleteEdgesKeep(g, front);
      DeleteEdgeKeeps(DeleteEdges(g, front), last.id);
      DeleteEdgeCounters(DeleteEdges(g, front), last.id);
      assert es == front + [last];
      assert EdgeIds(es) == EdgeIds(front) + {last.id};
    }
  }

  lemma DeleteEdgeCounters(g: Graph, id: Id)
    ensures DeleteEdge(g, id).nextNode == g.nextNode && DeleteEdge(g, id).nextEdge == g.nextEdge
  {
  }

  function DetachDelete(g: Graph, id: Id): (r: Graph) {
    var h := DeleteEdges(g, EdgesAt(g, Out, id, None) + EdgesAt(g, In, id, None));
    h.(nodes := h.nodes - {id})
  }

  /** Deleting a node with its edges leaves no edge without an end. */
  lemma DetachDeleteKeeps(g: Graph, id: Id)
    requires Inv(g)
    ensures Inv(DetachDelete(g, id))
    ensures DetachDelete(g, id).nodes == g.nodes - {id}
    ensures DetachDelete(g, id).edges == map i | i in g.edges && g.edges[i].src != id && g.edges[i].dst != id :: g.edges[i]
  {
    hide EdgesAt, DeleteEdges;
    var out, in_ := EdgesAt(g, Out, id, None), EdgesAt(g, In, id, None);
    EdgesAtExact(g, Out, id, None);
    EdgesAtExact(g, In, id, None);
    DeleteEdgesKeep(g, out + in_);
    var h := DeleteEdges(g, out + in_);
    forall i | i in g.edges
      ensures i in EdgeIds(out + in_) <==> g.edges[i].src == id || g.edges[i].dst == id
    {
      var e := g.edges[i];
      assert e in out <==> Answers(g, Out, id, None, e);
      assert e in in_ <==> Answers(g, In, id, None, e);
      if i in EdgeIds(out + in_) {
        var f: Edge :| f in out + in_ && f.id == i;
        assert f in out || f in in_;
      } else {
        assert e !in out + in_;
      }
    }
    DropNode(g, h, id);
  }

  lemma DropNode(g: Graph, h: Graph, id: Id)
    requires Inv(h) && h.nodes == g.nodes
    requires forall i :: i in h.edges ==> h.edges[i].src != id && h.edges[i].dst != id
    ensures Inv(h.(nodes := h.nodes - {id}))
  {
    hide MapOf, Sorted, EdgeKeys;
    var r := h.(nodes := h.nodes - {id});
    assert forall d: Side :: Adjacency(r, d) == Adjacency(h, d);
  }

  datatype Op =
    | CreateNode(labels: seq<string>, nodeProperties: map<string, Value>)
    | UpdateNode(node: Node)
    | DeleteNode(nodeId: Id, detach: bool)
    | CreateEdge(edgeType: EdgeType, src: Id, dst: Id, edgeProperties: map<string, Value>)
    | UpdateEdge(edge: Edge)
    | RemoveEdge(edgeId: Id)

  const LAST_ID: Id := 0xFFFF_FFFF_FFFF_FFFF

  /**
   * What callers must keep to: ids do not run out, types hold no zero byte, updated nodes were
   * created, and updated edges exist with the same ends and type.
   */
  ghost predicate Allowed(g: Graph, op: Op) {
    match op
    case CreateNode(_, _) => g.nextNode < LAST_ID
    case UpdateNode(n) => n.id < g.nextNode
    case DeleteNode(_, _) => true
    case CreateEdge(t, _, _, _) => NulFree(t) && g.nextEdge < LAST_ID
    case UpdateEdge(e) =>
      e.id in g.edges && g.edges[e.id].src == e.src && g.edges[e.id].dst == e.dst && g.edges[e.id].edgeType == e.edgeType
    case RemoveEdge(_) => true
  }

  /** One operation; an error leaves the store as it was. */
  function Step(g: Graph, op: Op): (r: Graph)
    requires Allowed(g, op)
  {
    match op
    case CreateNode(labels, properties) =>
      SaveNode(g.(nextNode := g.nextNode + 1), Node(g.nextNode, labels, properties))
    case UpdateNode(n) => SaveNode(g, n)
    case DeleteNode(id, detach) =>
      if id !in g.nodes then g
      else if !detach && (EdgesAt(g, Out, id, None) != [] || EdgesAt(g, In, id, None) != []) then g
      else DetachDelete(g, id)
    case CreateEdge(t, src, dst, properties) =>
      if src !in g.nodes || dst !in g.nodes then g
      else SaveEdge(g.(nextEdge := g.nextEdge + 1), Edge(g.nextEdge, t, src, dst, properties))
    case UpdateEdge(e) => SaveEdge(g, e)
    case RemoveEdge(id) => DeleteEdge(g, id)
  }

  lemma SaveNodeKeeps(g: Graph, n: Node)
    requires Inv(g) && n.id < g.nextNode
    ensures Inv(SaveNode(g, n))
  {
    hide MapOf, Sorted, EdgeKeys;
    var r := SaveNode(g, n);
    assert forall d: Side :: Adjacency(r, d) == Adjacency(g, d);
  }

  lemma CountersKeep(g: Graph, nextNode: Id, nextEdge: Id)
    requires Inv(g) && nextNode >= g.nextNode && nextEdge >= g.nextEdge
    ensures Inv(g.(nextNode := nextNode, nextEdge := nextEdge))
  {
    hide MapOf, Sorted, EdgeKeys;
    var r := g.(nextNode := nextNode, nextEdge := nextEdge);
    assert forall d: Side :: Adjacency(r, d) == Adjacency(g, d);
  }

  lemma StepKeeps(g: Graph, op: Op)
    requires Inv(g) && Allowed(g, op)
    ensures Inv(Step(g, op))
  {
    hide AdjInv, EdgesAt, DetachDelete, DeleteEdge, SaveNode, SaveEdge;
    match op
    case CreateNode(labels, properties) =>
      CountersKeep(g, g.nextNode + 1, g.nextEdge);
      SaveNodeKeeps(g.(nextNode := g.nextNode + 1), Node(g.nextNode, labels, properties));
    case UpdateNode(n) => SaveNodeKeeps(g, n);
    case DeleteNode(id, detach) => DetachDeleteKeeps(g, id);
    case CreateEdge(t, src, dst, properties) =>
      if src in g.nodes && dst in g.nodes {
        CountersKeep(g, g.nextNode, g.nextEdge + 1);
        SaveEdgeKeeps(g.(nextEdge := g.nextEdge + 1), Edge(g.nextEdge, t, src, dst, properties));
      }
    case UpdateEdge(e) => SaveEdgeKeeps(g, e);
    case RemoveEdge(id) => DeleteEdgeKeeps(g, id);
  }

  const EMPTY := Graph(map[], map[], [], [], 1, 1)

  ghost predicate Run(g: Graph, ops: seq<Op>, r: Graph)
    decreases ops
  {
    if ops == [] then g == r else Allowed(g, ops[0]) && Run(Step(g, ops[0]), ops[1..], r)
  }

  lemma EmptyInv()
    ensures Inv(EMPTY)
  {
    assert forall d: Side :: Adjacency(EMPTY, d) == [];
    assert forall d: Side :: EdgeKeys(map[], d) == {};
  }

  lemma {:induction false} RunKeeps(g: Graph, ops: seq<Op>, r: Graph)
    requires Inv(g) && Run(g, ops, r)
    ensures Inv(r)
    decreases ops
  {
    hide Inv, Allowed, Step;
    if ops != [] {
      StepKeeps(g, ops[0]);
      RunKeeps(Step(g, ops[0]), ops[1..], r);
    }
  }

  /**
   * In every state reached by creating, updating and deleting nodes and edges, the edges listed at
   * a node are exactly the stored edges with that end and type, each once, and no edge lacks an end.
   */
  lemma AdjacencyExact(ops: seq<Op>, g: Graph, d: Side, n: Id, t: Option<EdgeType>)
    requires Run(EMPTY, ops, g) && (t.Some? ==> NulFree(t.value))
    ensures DistinctIds(EdgesAt(g, d, n, t))
    ensures forall e :: e in EdgesAt(g, d, n, t) <==> Answers(g, d, n, t, e)
    ensures forall i :: i in g.edges ==> g.edges[i].src in g.nodes && g.edges[i].dst in g.nodes
  {
    hide AdjInv, EdgesAt, Run;
    EmptyInv();
    RunKeeps(EMPTY, ops, g);
    EdgesAtExact(g, d, n, t);
  }

  // ---------------------------------------------------------------- the store object

  class Store {
    var g: Graph

    ghost predicate Valid()
      reads this
    {
      Inv(g)
    }

    constructor ()
      ensures Valid() && g == EMPTY
    {
      g := EMPTY;
      new;
      EmptyInv();
    }

    /** Lists the edges at a node: scan the adjacency prefix, decode each key, fetch each edge. */
    method GetEdges(d: Side, n: Id, t: Option<EdgeType>) returns (es: seq<Edge>)
      requires Valid()
      ensures es == EdgesAt(g, d, n, t)
      ensures (t.Some? ==> NulFree(t.value)) ==> DistinctIds(es) && forall e :: e in es <==> Answers(g, d, n, t, e)
    {
      hide Inv, Answers, DecodeAdjKey, Select;
      if t.Some? ==> NulFree(t.value) {
        EdgesAtExact(g, d, n, t);
      }
      var entries := Select(Adjacency(g, d), Prefix(EncodeAdjKey(n, t, None)));
      es := [];
      for i := 0 to |entries|
        invariant es == Collect(entries[..i], g.edges)
      {
        assert entries[..i + 1][..i] == entries[..i];
        var a := ScanAdjKey(entries[i].key);
        if a.Some? && a.value.edge < 0x1_0000_0000_0000_0000 && a.value.edge in g.edges {
          es := es + [g.edges[a.value.edge]];
        }
      }
      assert entries[..|entries|] == entries;
    }

    method DeleteEdgeById(id: Id) returns (existed: bool)
      requires Valid()
      modifies this
      ensures Valid() && g == DeleteEdge(old(g), id) && existed == (id in old(g).edges)
    {
      DeleteEdgeKeeps(g, id);
      existed := id in g.edges;
      if existed {
        var e := g.edges[id];
        g := g.(adjOut := Delete(g.adjOut, AdjKey(e.src, e)));
        g := g.(adjIn := Delete(g.adjIn, AdjKey(e.dst, e)));
        g := g.(edges := g.edges - {id});
      }
    }

    /** Deletes a node, refusing while it has edges unless they are to be deleted with it. */
    method DeleteNodeById(id: Id, detach: bool) returns (deleted: bool)
      requires Valid()
      modifies this
      ensures Valid() && g == Step(old(g), DeleteNode(id, detach))
      ensures deleted <==> id in old(g).nodes && id !in g.nodes
      ensures deleted ==> forall i :: i in g.edges <==> i in old(g).edges && old(g).edges[i].src != id && old(g).edges[i].dst != id
    {
      hide Inv, EdgesAt, DeleteEdge, Answers;
      StepKeeps(g, DeleteNode(id, detach));
      DetachDeleteKeeps(g, id);
      if id !in g.nodes {
        return false;
      }
      var out := GetEdges(Out, id, None);
      var in_ := GetEdges(In, id, None);
      if !detach && (out != [] || in_ != []) {
        return false;
      }
      var all := out + in_;
      for i := 0 to |all|
        invariant Valid() && g == DeleteEdges(old(g), all[..i])
      {
        assert all[..i + 1][..i] == all[..i];
        var _ := DeleteEdgeById(all[i].id);
      }
      assert all[..|all|] == all;
      g := g.(nodes := g.nodes - {id});
      deleted := true;
    }
  }
}
