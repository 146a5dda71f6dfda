/** Which edges of a node an edge pattern matches, and walks and paths along them. */
module GraphPattern {
  import opened Bytes
  import opened SortedEntries
  import opened GraphStore

  datatype Direction = Outgoing | Incoming | Both

  /**
   * An edge pattern: a direction, types, and the property filter as a predicate. `sameType` is the
   * comparison used when several types are given.
   */
  datatype EdgePattern = EdgePattern(
    direction: Direction,
    edgeTypes: seq<EdgeType>,
    sameType: (EdgeType, EdgeType) -> bool,
    properties: Edge -> bool)

  datatype Path = Path(nodes: seq<Node>, edges: seq<Edge>)

  // ---------------------------------------------------------------- sorting and deduplicating by id

  function InsertById(es: seq<Edge>, e: Edge): (r: seq<Edge>) {
    if es == [] || es[|es| - 1].id <= e.id then es + [e] else InsertById(es[..|es| - 1], e) + [es[|es| - 1]]
  }

  function SortById(es: seq<Edge>): (r: seq<Edge>) {
    if es == [] then [] else InsertById(SortById(es[..|es| - 1]), es[|es| - 1])
  }

  /** Keeps the first of each run of edges with the same id. */
  function DedupById(es: seq<Edge>): (r: seq<Edge>) {
    if |es| <= 1 then es
    else
      var front, last := es[..|es| - 1], es[|es| - 1];
      if front[|front| - 1].id == last.id then DedupById(front) else DedupById(front) + [last]
  }

  ghost predicate AscendingIds(es: seq<Edge>) {
    forall i, j :: 0 <= i < j < |es| ==> es[i].id <= es[j].id
  }

  lemma {:induction false} InsertByIdSorts(es: seq<Edge>, e: Edge)
    requires AscendingIds(es)
    ensures AscendingIds(InsertById(es, e))
    ensures forall x :: x in InsertById(es, e) <==> x in es || x == e
  {
    if es != [] && es[|es| - 1].id > e.id {
      var front, last := es[..|es| - 1], es[|es| - 1];
      InsertByIdSorts(front, e);
      assert es == front + [last];
      forall x | x in InsertById(front, e) ensures x.id <= last.id {
        assert x in front || x == e;
      }
    }
  }

  lemma {:induction false} SortByIdSorts(es: seq<Edge>)
    ensures AscendingIds(SortById(es))
    ensures forall x :: x in SortById(es) <==> x in es
  {
    if es != [] {
      SortByIdSorts(es[..|es| - 1]);
      InsertByIdSorts(SortById(es[..|es| - 1]), es[|es| - 1]);
      assert es == es[..|es| - 1] + [es[|es| - 1]];
    }
  }

  lemma LastIsLarger(front: seq<Edge>, last: Edge)
    requires AscendingIds(front + [last]) && front != [] && front[|front| - 1].id != last.id
    ensures forall x :: x in front ==> x.id != last.id
  {
    var es := front + [last];
    forall x | x in front ensures x.id != last.id {
      var i :| 0 <= i < |front| && front[i] == x;
      assert es[i].id <= es[|front| - 1].id <= es[|front|].id;
    }
  }

  lemma DistinctSnoc(es: seq<Edge>, e: Edge)
    requires DistinctIds(es) && forall x :: x in es ==> x.id != e.id
    ensures DistinctIds(es + [e])
  {
  }

  /** On sorted edges where equal ids mean equal edges, each edge is kept. */
  lemma {:induction false} DedupKeepsAll(es: seq<Edge>)
    requires forall x, y :: x in es && y in es && x.id == y.id ==> x == y
    ensures forall x :: x in DedupById(es) <==> x in es
  {
    if |es| > 1 {
      var front, last := es[..|es| - 1], es[|es| - 1];
      assert es == front + [last];
      assert forall x :: x in es <==> x in front || x == last;
      DedupKeepsAll(front);
      if front[|front| - 1].id == last.id {
        assert front[|front| - 1] in front;
      }
    }
  }

  /** On sorted edges where equal ids mean equal edges, each edge is kept exactly once. */
  lemma {:induction false} DedupByIdDistinct(es: seq<Edge>)
    requires AscendingIds(es) && forall x, y :: x in es && y in es && x.id == y.id ==> x == y
    ensures DistinctIds(DedupById(es))
    ensures forall x :: x in DedupById(es) <==> x in es
  {
    hide AscendingIds, DistinctIds;
    DedupKeepsAll(es);
    if |es| > 1 {
      var front, last := es[..|es| - 1], es[|es| - 1];
      assert es == front + [last];
      AscendingFront(front, last);
      assert forall x :: x in front ==> x in es;
      DedupByIdDistinct(front);
      if front[|front| - 1].id != last.id {
        LastIsLarger(front, last);
        DistinctSnoc(DedupById(front), last);
      }
    } else {
      AtMostOne(es);
    }
  }

  lemma AscendingFront(front: seq<Edge>, last: Edge)
    requires AscendingIds(front + [last])
    ensures AscendingIds(front)
  {
    forall i, j | 0 <= i < j < |front| ensures front[i].id <= front[j].id {
      assert (front + [last])[i].id <= (front + [last])[j].id;
    }
  }

  lemma AtMostOne(es: seq<Edge>)
    requires |es| <= 1
    ensures DistinctIds(es)
  {
  }

  // ---------------------------------------------------------------- matching edges

  function Filter(es: seq<Edge>, keep: Edge -> bool): (r: seq<Edge>) {
    if es == [] then [] else Filter(es[..|es| - 1], keep) + if keep(es[|es| - 1]) then [es[|es| - 1]] else []
  }

  lemma {:induction false} FilterKeeps(es: seq<Edge>, keep: Edge -> bool)
    ensures forall x :: x in Filter(es, keep) <==> x in es && keep(x)
    ensures DistinctIds(es) ==> DistinctIds(Filter(es, keep))
  {
    if es != [] {
      var front, last := es[..|es| - 1], es[|es| - 1];
      FilterKeeps(front, keep);
      assert es == front + [last];
      if DistinctIds(es) {
        forall x | x in Filter(front, keep) ensures x.id != last.id {
          var i :| 0 <= i < |front| && front[i] == x;
          assert es[i].id != es[|front|].id;
        }
      }
    }
  }

  /** The type handed to the store: the first of the pattern, if any. */
  function TypeFilter(pat: EdgePattern): (t: Option<EdgeType>) {
    if pat.edgeTypes == [] then None else Some(pat.edgeTypes[0])
  }

  function AnyType(pat: EdgePattern): Edge -> bool {
    (e: Edge) => exists t :: t in pat.edgeTypes && pat.sameType(t, e.edgeType)
  }

  function Listed(g: Graph, n: Id, pat: EdgePattern): (es: seq<Edge>) {
    var t := TypeFilter(pat);
    match pat.direction
    case Outgoing => EdgesAt(g, Out, n, t)
    case Incoming => EdgesAt(g, In, n, t)
    case Both => DedupById(SortById(EdgesAt(g, Out, n, t) + EdgesAt(g, In, n, t)))
  }

  /** The edges at node n that a pattern matches, in the order they are followed. */
  function MatchingEdges(g: Graph, n: Id, pat: EdgePattern): (es: seq<Edge>) {
    var listed := Listed(g, n, pat);
    var typed := if |pat.edgeTypes| > 1 then Filter(listed, AnyType(pat)) else listed;
    Filter(typed, pat.properties)
  }

  ghost predicate Touches(e: Edge, n: Id, direction: Direction) {
    match direction
    case Outgoing => e.src == n
    case Incoming => e.dst == n
    case Both => e.src == n || e.dst == n
  }

  /**
   * What a pattern matches at a node: stored edges in the right direction whose type is exactly the
   * first type of the pattern and passes the others' test, and whose properties pass.
   */
  ghost predicate EdgeMatches(g: Graph, n: Id, pat: EdgePattern, e: Edge) {
    && e.id in g.edges && g.edges[e.id] == e && Touches(e, n, pat.direction)
    && (pat.edgeTypes != [] ==> e.edgeType == pat.edgeTypes[0])
    && (|pat.edgeTypes| > 1 ==> AnyType(pat)(e))
    && pat.properties(e)
  }

  ghost predicate TypesOk(pat: EdgePattern) {
    pat.edgeTypes != [] ==> NulFree(pat.edgeTypes[0])
  }

  lemma ListedExact(g: Graph, n: Id, pat: EdgePattern)
    requires Inv(g) && TypesOk(pat)
    ensures DistinctIds(Listed(g, n, pat))
    ensures forall e :: e in Listed(g, n, pat) <==>
              && e.id in g.edges && g.edges[e.id] == e && Touches(e, n, pat.direction)
              && (pat.edgeTypes != [] ==> e.edgeType == pat.edgeTypes[0])
  {
    hide Inv, EdgesAt, SortById, DedupById;
    var t := TypeFilter(pat);
    EdgesAtExact(g, Out, n, t);
    EdgesAtExact(g, In, n, t);
    if pat.direction.Both? {
      var all := EdgesAt(g, Out, n, t) + EdgesAt(g, In, n, t);
      assert forall e :: e in all <==> e in EdgesAt(g, Out, n, t) || e in EdgesAt(g, In, n, t);
      SortByIdSorts(all);
      DedupByIdDistinct(SortById(all));
    }
  }

  /** The matching edges are exactly those the pattern describes, each once, self-loops included. */
  lemma MatchingEdgesExact(g: Graph, n: Id, pat: EdgePattern)
    requires Inv(g) && TypesOk(pat)
    ensures DistinctIds(MatchingEdges(g, n, pat))
    ensures forall e :: e in MatchingEdges(g, n, pat) <==> EdgeMatches(g, n, pat, e)
  {
    hide Inv, Listed, AnyType;
    ListedExact(g, n, pat);
    FilterKeeps(Listed(g, n, pat), AnyType(pat));
    FilterKeeps(if |pat.edgeTypes| > 1 then Filter(Listed(g, n, pat), AnyType(pat)) else Listed(g, n, pat), pat.properties);
  }

  /** The same, edge by edge and in full. */
  lemma MatchedExactly(g: Graph, n: Id, pat: EdgePattern, e: Edge)
    requires Inv(g) && TypesOk(pat)
    ensures e in MatchingEdges(g, n, pat) <==>
              && e.id in g.edges && g.edges[e.id] == e && pat.properties(e)
              && (match pat.direction case Outgoing => e.src == n case Incoming => e.dst == n case Both => n in {e.src, e.dst})
              && (pat.edgeTypes != [] ==> e.edgeType == pat.edgeTypes[0])
              && (|pat.edgeTypes| > 1 ==> exists t :: t in pat.edgeTypes && pat.sameType(t, e.edgeType))
  {
    hide Inv, MatchingEdges;
    MatchingEdgesExact(g, n, pat);
  }

  // ---------------------------------------------------------------- walks

  /** The end of an edge reached from n. */
  function Other(e: Edge, n: Id): (m: Id) {
    if e.src == n then e.dst else e.src
  }

  /** One step from n along a matching edge to a stored node m. */
  ghost predicate Hop(g: Graph, pat: EdgePattern, n: Id, e: Edge, m: Id) {
    e in MatchingEdges(g, n, pat) && m == Other(e, n) && m in g.nodes
  }

  /** A walk from n: the ids visited and the edges between them. */
  ghost predicate IsWalk(g: Graph, pat: EdgePattern, n: Id, ids: seq<Id>, es: seq<Edge>) {
    && |ids| == |es| + 1 && ids[0] == n
    && forall i :: 0 <= i < |es| ==> Hop(g, pat, ids[i], es[i], ids[i + 1])
  }

  /** A path extended by the nodes and edges of a walk. */
  function Extend(g: Graph, p: Path, ids: seq<Id>, es: seq<Edge>): (r: Path)
    requires |ids| == |es| + 1 && forall i :: 0 < i < |ids| ==> ids[i] in g.nodes
  {
    Path(p.nodes + seq(|es|, i requires 0 <= i < |es| => g.nodes[ids[i + 1]]), p.edges + es)
  }

  lemma WalkPrefix(g: Graph, pat: EdgePattern, n: Id, ids: seq<Id>, es: seq<Edge>)
    requires IsWalk(g, pat, n, ids, es) && es != []
    ensures IsWalk(g, pat, n, ids[..|es|], es[..|es| - 1])
    ensures Hop(g, pat, ids[|es| - 1], es[|es| - 1], ids[|es|])
  {
    hide Hop;
  }

  lemma WalkSnoc(g: Graph, pat: EdgePattern, n: Id, ids: seq<Id>, es: seq<Edge>, e: Edge, m: Id)
    requires IsWalk(g, pat, n, ids, es) && Hop(g, pat, ids[|es|], e, m)
    ensures IsWalk(g, pat, n, ids + [m], es + [e])
  {
    hide Hop;
  }

  /** Extending by one more step appends its node and edge. */
  lemma ExtendSnoc(g: Graph, p: Path, ids: seq<Id>, es: seq<Edge>, e: Edge, m: Id)
    requires |ids| == |es| + 1 && (forall i :: 0 < i < |ids| ==> ids[i] in g.nodes) && m in g.nodes
    ensures var q := Extend(g, p, ids, es);
            Extend(g, p, ids + [m], es + [e]) == Path(q.nodes + [g.nodes[m]], q.edges + [e])
  {
    var q, r := Extend(g, p, ids, es), Extend(g, p, ids + [m], es + [e]);
    assert r.nodes == q.nodes + [g.nodes[m]];
    assert r.edges == q.edges + [e];
  }

  // ---------------------------------------------------------------- walks in terms of edge ends

  /** The edge joins n to m in the pattern's direction. */
  ghost predicate Joins(e: Edge, n: Id, m: Id, direction: Direction) {
    match direction
    case Outgoing => e.src == n && e.dst == m
    case Incoming => e.dst == n && e.src == m
    case Both => (e.src == n && e.dst == m) || (e.dst == n && e.src == m)
  }

  /** One step: a stored edge that the pattern describes, from n to a stored node m. */
  ghost predicate StepAlong(g: Graph, pat: EdgePattern, n: Id, e: Edge, m: Id) {
    EdgeMatches(g, n, pat, e) && m in g.nodes && Joins(e, n, m, pat.direction)
  }

  /** A walk from n, node by node. */
  ghost predicate WalkAlong(g: Graph, pat: EdgePattern, n: Id, ids: seq<Id>, es: seq<Edge>) {
    && |ids| == |es| + 1 && ids[0] == n
    && forall i :: 0 <= i < |es| ==> StepAlong(g, pat, ids[i], es[i], ids[i + 1])
  }

  /** A path goes on from p by the given edges and the nodes they lead to. */
  ghost predicate GoesOn(g: Graph, p: Path, ids: seq<Id>, es: seq<Edge>, q: Path) {
    && |ids| == |es| + 1 && q.edges == p.edges + es && |q.nodes| == |p.nodes| + |es| && q.nodes[..|p.nodes|] == p.nodes
    && (forall i :: 0 < i <= |es| ==> ids[i] in g.nodes)
    && (forall j :: |p.nodes| <= j < |q.nodes| ==> q.nodes[j] == g.nodes[ids[j - |p.nodes| + 1]])
  }

  /** The search steps are exactly these, in a consistent store. */
  lemma HopMeans(g: Graph, pat: EdgePattern, n: Id, e: Edge, m: Id)
    requires Inv(g) && TypesOk(pat)
    ensures Hop(g, pat, n, e, m) <==> StepAlong(g, pat, n, e, m)
  {
    hide Inv, MatchingEdges, AnyType;
    MatchingEdgesExact(g, n, pat);
  }

  lemma WalkMeans(g: Graph, pat: EdgePattern, n: Id, ids: seq<Id>, es: seq<Edge>)
    requires Inv(g) && TypesOk(pat)
    ensures IsWalk(g, pat, n, ids, es) <==> WalkAlong(g, pat, n, ids, es)
  {
    hide Inv, Hop, StepAlong;
    if |ids| == |es| + 1 {
      forall i | 0 <= i < |es|
        ensures Hop(g, pat, ids[i], es[i], ids[i + 1]) <==> StepAlong(g, pat, ids[i], es[i], ids[i + 1])
      {
        HopMeans(g, pat, ids[i], es[i], ids[i + 1]);
      }
    }
  }

  lemma ExtendMeans(g: Graph, p: Path, ids: seq<Id>, es: seq<Edge>, q: Path)
    requires |ids| == |es| + 1 && forall i :: 0 < i < |ids| ==> ids[i] in g.nodes
    ensures q == Extend(g, p, ids, es) <==> GoesOn(g, p, ids, es, q)
  {
    var r := Extend(g, p, ids, es);
    assert r.nodes[..|p.nodes|] == p.nodes;
    if GoesOn(g, p, ids, es, q) {
      assert q.nodes == q.nodes[..|p.nodes|] + q.nodes[|p.nodes|..];
      assert q.nodes[|p.nodes|..] == r.nodes[|p.nodes|..];
      assert r.nodes == r.nodes[..|p.nodes|] + r.nodes[|p.nodes|..];
    }
  }
}
