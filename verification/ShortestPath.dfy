/** Breadth-first search for a shortest walk to a matching node. */
module ShortestPath {
  import opened Bytes
  import opened SortedEntries
  import opened GraphStore
  import opened GraphPattern

  /** A way to reach a node: the walk the search found first. */
  datatype Way = Way(ids: seq<Id>, es: seq<Edge>)

  datatype Found = NotFound | Found(node: Node, path: Path)

  /** A matching node other than the start. */
  ghost predicate Target(g: Graph, start: Id, matches: Node -> bool, m: Id) {
    m != start && m in g.nodes && matches(g.nodes[m])
  }

  // ---------------------------------------------------------------- what the search has established

  /** Each visited node is reached by its way. */
  ghost predicate WaysOk(g: Graph, pat: EdgePattern, start: Id, ways: map<Id, Way>) {
    && start in ways && ways[start] == Way([start], [])
    && forall v :: v in ways ==> IsWalk(g, pat, start, ways[v].ids, ways[v].es) && ways[v].ids[|ways[v].es|] == v
  }

  ghost predicate NoTarget(g: Graph, start: Id, matches: Node -> bool, ways: map<Id, Way>) {
    forall v :: v in ways ==> !Target(g, start, matches, v)
  }

  /** Every walk of at most d edges ends at a visited node, not nearer than the way found to it. */
  ghost predicate Explored(g: Graph, pat: EdgePattern, start: Id, ways: map<Id, Way>, d: nat) {
    forall ids, es :: IsWalk(g, pat, start, ids, es) && |es| <= d ==>
      ids[|es|] in ways && |ways[ids[|es|]].es| <= |es|
  }

  /** Every step from a processed node ends at a visited one. */
  ghost predicate Closed(g: Graph, pat: EdgePattern, done: set<Id>, ways: map<Id, Way>) {
    forall v, e, m :: v in done && Hop(g, pat, v, e, m) ==> m in ways
  }

  /** The queue holds the visited nodes not yet processed, in order of distance, at most one level apart. */
  ghost predicate QueueOk(ids: seq<Id>, done: set<Id>, ways: map<Id, Way>) {
    && (forall i :: 0 <= i < |ids| ==> ids[i] in ways && ids[i] !in done)
    && (forall v :: v in ways ==> v in done || v in ids)
    && (forall v :: v in done ==> v in ways)
    && (forall i, j :: 0 <= i < j < |ids| ==> ids[i] != ids[j])
    && (forall i, j :: 0 <= i < j < |ids| ==> |ways[ids[i]].es| <= |ways[ids[j]].es| <= |ways[ids[i]].es| + 1)
  }

  /** Processed nodes are not farther than the front of the queue. */
  ghost predicate DoneNear(done: set<Id>, ways: map<Id, Way>, d: nat) {
    forall v :: v in done && v in ways ==> |ways[v].es| <= d
  }

  /** When everything at distance d is processed, everything at distance d + 1 is visited. */
  lemma NextLevel(g: Graph, pat: EdgePattern, start: Id, ids: seq<Id>, done: set<Id>, ways: map<Id, Way>, d: nat)
    requires WaysOk(g, pat, start, ways) && Explored(g, pat, start, ways, d)
    requires Closed(g, pat, done, ways) && QueueOk(ids, done, ways)
    requires forall i :: 0 <= i < |ids| ==> |ways[ids[i]].es| == d + 1
    requires DoneNear(done, ways, d + 1)
    ensures Explored(g, pat, start, ways, d + 1)
  {
    hide Hop, WaysOk;
    forall xs, es | IsWalk(g, pat, start, xs, es) && |es| <= d + 1
      ensures xs[|es|] in ways && |ways[xs[|es|]].es| <= |es|
    {
      if |es| == d + 1 {
        LastStep(g, pat, start, ids, done, ways, d, xs, es);
      }
    }
  }

  lemma LastStep(g: Graph, pat: EdgePattern, start: Id, ids: seq<Id>, done: set<Id>, ways: map<Id, Way>, d: nat,
                 xs: seq<Id>, es: seq<Edge>)
    requires Explored(g, pat, start, ways, d) && Closed(g, pat, done, ways) && QueueOk(ids, done, ways)
    requires (forall i :: 0 <= i < |ids| ==> |ways[ids[i]].es| == d + 1) && DoneNear(done, ways, d + 1)
    requires IsWalk(g, pat, start, xs, es) && |es| == d + 1
    ensures xs[|es|] in ways && |ways[xs[|es|]].es| <= d + 1
  {
    hide Hop;
    WalkPrefix(g, pat, start, xs, es);
    var u := xs[..|es|][|es| - 1];
    assert u in ways && |ways[u].es| <= d;
    assert u in done;
    assert xs[|es|] in ways;
  }

  type Queue = seq<(Node, Path)>

  /** The queue's nodes and paths are those of the ways found. */
  ghost predicate QueueMatches(g: Graph, curr: Path, queue: Queue, ids: seq<Id>, ways: map<Id, Way>) {
    && |queue| == |ids|
    && forall i :: 0 <= i < |ids| ==>
         && queue[i].0.id == ids[i] && ids[i] in ways
         && PathOf(g, curr, queue[i].1, ways[ids[i]])
  }

  ghost predicate PathOf(g: Graph, curr: Path, p: Path, w: Way) {
    && |w.ids| == |w.es| + 1 && (forall i :: 0 < i < |w.ids| ==> w.ids[i] in g.nodes)
    && p == Extend(g, curr, w.ids, w.es)
  }

  /** The state of the search while nodes at distance d are being processed. */
  ghost predicate Level(g: Graph, pat: EdgePattern, start: Id, matches: Node -> bool,
                        ids: seq<Id>, done: set<Id>, ways: map<Id, Way>, d: nat)
  {
    && WaysOk(g, pat, start, ways) && NoTarget(g, start, matches, ways)
    && QueueOk(ids, done, ways) && DoneNear(done, ways, d) && Explored(g, pat, start, ways, d)
    && forall i :: 0 <= i < |ids| ==> d <= |ways[ids[i]].es| <= d + 1
  }

  /** Visiting a new node from a processed one at distance d. */
  lemma Visit(g: Graph, pat: EdgePattern, start: Id, matches: Node -> bool,
              ids: seq<Id>, done: set<Id>, ways: map<Id, Way>, d: nat, v: Id, e: Edge, m: Id)
    requires Level(g, pat, start, matches, ids, done, ways, d)
    requires v in done && v in ways && |ways[v].es| == d
    requires Hop(g, pat, v, e, m) && m !in ways && !matches(g.nodes[m])
    ensures var way := Way(ways[v].ids + [m], ways[v].es + [e]);
            Level(g, pat, start, matches, ids + [m], done, ways[m := way], d)
  {
    hide Hop;
    var way := Way(ways[v].ids + [m], ways[v].es + [e]);
    var more := ways[m := way];
    WalkSnoc(g, pat, start, ways[v].ids, ways[v].es, e, m);
    assert WaysOk(g, pat, start, more);
    assert m !in ids && m !in done;
    QueueGrows(ids, done, ways, d, m, way);
    ExploredGrows(g, pat, start, ways, d, m, way);
  }

  lemma QueueGrows(ids: seq<Id>, done: set<Id>, ways: map<Id, Way>, d: nat, m: Id, way: Way)
    requires QueueOk(ids, done, ways) && DoneNear(done, ways, d) && m !in ways && |way.es| == d + 1
    requires forall i :: 0 <= i < |ids| ==> d <= |ways[ids[i]].es| <= d + 1
    ensures QueueOk(ids + [m], done, ways[m := way]) && DoneNear(done, ways[m := way], d)
    ensures forall i :: 0 <= i < |ids| + 1 ==> d <= |ways[m := way][(ids + [m])[i]].es| <= d + 1
  {
    var xs, more := ids + [m], ways[m := way];
    forall i | 0 <= i < |xs| ensures xs[i] in more && xs[i] !in done && d <= |more[xs[i]].es| <= d + 1 {
      if i < |ids| {
        assert xs[i] == ids[i];
      }
    }
    assert xs[|ids|] == m;
    QueueCovers(ids, done, ways, m);
    forall i, j | 0 <= i < j < |xs|
      ensures xs[i] != xs[j] && |more[xs[i]].es| <= |more[xs[j]].es| <= |more[xs[i]].es| + 1
    {
      assert xs[i] == ids[i];
      if j < |ids| {
        assert xs[j] == ids[j];
      }
    }
  }

  lemma QueueCovers(ids: seq<Id>, done: set<Id>, ways: map<Id, Way>, m: Id)
    requires forall v :: v in ways ==> v in done || v in ids
    ensures forall v :: v in ways || v == m ==> v in done || v in ids + [m]
  {
  }

  lemma ExploredGrows(g: Graph, pat: EdgePattern, start: Id, ways: map<Id, Way>, d: nat, m: Id, way: Way)
    requires Explored(g, pat, start, ways, d) && m !in ways
    ensures Explored(g, pat, start, ways[m := way], d)
  {
    hide IsWalk;
  }

  /** When every visited node is processed, every walk ends at a visited node. */
  lemma {:induction false} AllReached(g: Graph, pat: EdgePattern, start: Id, done: set<Id>, ways: map<Id, Way>,
                                      ids: seq<Id>, es: seq<Edge>)
    requires start in ways && Closed(g, pat, done, ways) && (forall v :: v in ways ==> v in done)
    requires IsWalk(g, pat, start, ids, es)
    ensures ids[|es|] in ways
    decreases es
  {
    hide Hop;
    if es != [] {
      WalkPrefix(g, pat, start, ids, es);
      AllReached(g, pat, start, done, ways, ids[..|es|], es[..|es| - 1]);
    }
  }

  /** What the search promises. */
  ghost predicate Shortest(g: Graph, pat: EdgePattern, start: Id, matches: Node -> bool, curr: Path, r: Found) {
    match r
    case NotFound => forall ids, es :: IsWalk(g, pat, start, ids, es) ==> !Target(g, start, matches, ids[|es|])
    case Found(node, path) =>
      exists ids, es ::
        && IsWalk(g, pat, start, ids, es) && Target(g, start, matches, ids[|es|])
        && PathOf(g, curr, path, Way(ids, es)) && node == g.nodes[ids[|es|]]
        && forall xs, fs :: IsWalk(g, pat, start, xs, fs) && Target(g, start, matches, xs[|fs|]) ==> |es| <= |fs|
  }

  /** A target first met from a node at distance d is as near as any. */
  lemma FirstTargetIsNearest(g: Graph, pat: EdgePattern, start: Id, matches: Node -> bool, curr: Path,
                             ids: seq<Id>, done: set<Id>, ways: map<Id, Way>, d: nat,
                             v: Id, e: Edge, m: Id, path: Path)
    requires Level(g, pat, start, matches, ids, done, ways, d)
    requires v in ways && |ways[v].es| == d && Hop(g, pat, v, e, m) && m !in ways && matches(g.nodes[m])
    requires PathOf(g, curr, path, Way(ways[v].ids + [m], ways[v].es + [e]))
    ensures Shortest(g, pat, start, matches, curr, Found(g.nodes[m], path))
  {
    hide Hop, QueueOk, DoneNear;
    var xs, es := ways[v].ids + [m], ways[v].es + [e];
    WalkSnoc(g, pat, start, ways[v].ids, ways[v].es, e, m);
    assert xs[|es|] == m && Target(g, start, matches, m);
    forall ys, fs | IsWalk(g, pat, start, ys, fs) && Target(g, start, matches, ys[|fs|]) ensures |es| <= |fs| {
    }
  }

  // ---------------------------------------------------------------- the search

  lemma Begin(g: Graph, pat: EdgePattern, start: Node, matches: Node -> bool, curr: Path)
    ensures var ways := map[start.id := Way([start.id], [])];
            && Level(g, pat, start.id, matches, [start.id], {}, ways, 0)
            && Closed(g, pat, {}, ways) && PathOf(g, curr, curr, Way([start.id], []))
  {
    var ways := map[start.id := Way([start.id], [])];
    assert IsWalk(g, pat, start.id, [start.id], []);
    assert Extend(g, curr, [start.id], []) == curr;
  }

  /** Taking the front node off the queue to process it. */
  lemma Dequeue(g: Graph, pat: EdgePattern, start: Id, matches: Node -> bool,
                ids: seq<Id>, done: set<Id>, ways: map<Id, Way>, d: nat)
    requires Level(g, pat, start, matches, ids, done, ways, d)
    requires ids != [] && ids[0] in ways && |ways[ids[0]].es| == d
    ensures Level(g, pat, start, matches, ids[1..], done + {ids[0]}, ways, d)
  {
    hide IsWalk, Explored, WaysOk;
    forall v | v in ways ensures v in done + {ids[0]} || v in ids[1..] {
      assert v in done || v in ids;
    }
    assert forall i :: 0 <= i < |ids[1..]| ==> ids[1..][i] == ids[i + 1];
  }

  /** Moving on to the front of the queue, which may be one level farther. */
  lemma Advance(g: Graph, pat: EdgePattern, start: Id, matches: Node -> bool,
                ids: seq<Id>, done: set<Id>, ways: map<Id, Way>, d: nat)
    requires Level(g, pat, start, matches, ids, done, ways, d) && Closed(g, pat, done, ways)
    requires ids != []
    ensures Level(g, pat, start, matches, ids, done, ways, |ways[ids[0]].es|)
  {
    hide IsWalk, Explored, WaysOk, Closed;
    if |ways[ids[0]].es| == d + 1 {
      NextLevel(g, pat, start, ids, done, ways, d);
    }
  }

  lemma Exhausted(g: Graph, pat: EdgePattern, start: Id, matches: Node -> bool, curr: Path,
                  done: set<Id>, ways: map<Id, Way>, d: nat)
    requires Level(g, pat, start, matches, [], done, ways, d) && Closed(g, pat, done, ways)
    ensures Shortest(g, pat, start, matches, curr, NotFound)
  {
    hide Closed, Explored;
    forall ids, es | IsWalk(g, pat, start, ids, es) ensures !Target(g, start, matches, ids[|es|]) {
      AllReached(g, pat, start, done, ways, ids, es);
    }
  }

  /** Follows every matching edge of one node at distance d. */
  method ExpandNode(g: Graph, pat: EdgePattern, start: Id, matches: Node -> bool, curr: Path,
                    node: Node, p: Path, queue: Queue, visited: set<Id>,
                    ghost ids: seq<Id>, ghost done: set<Id>, ghost ways: map<Id, Way>, ghost d: nat)
    returns (r: Found, queue': Queue, visited': set<Id>, ghost ids': seq<Id>, ghost ways': map<Id, Way>)
    requires TablesInv(g) && Level(g, pat, start, matches, ids, done, ways, d)
    requires QueueMatches(g, curr, queue, ids, ways) && visited == ways.Keys
    requires node.id in done && node.id in ways && |ways[node.id].es| == d && PathOf(g, curr, p, ways[node.id])
    ensures r.Found? ==> Shortest(g, pat, start, matches, curr, r)
    ensures r.NotFound? ==>
              && Level(g, pat, start, matches, ids', done, ways', d)
              && QueueMatches(g, curr, queue', ids', ways') && visited' == ways'.Keys
              && visited <= visited' && visited' - visited <= g.nodes.Keys
              && (visited' == visited ==> queue' == queue)
              && forall e, m :: Hop(g, pat, node.id, e, m) ==> m in ways'
  {
    hide MatchingEdges, Level, PathOf, Shortest;
    r, queue', visited', ids', ways' := NotFound, queue, visited, ids, ways;
    var edges := MatchingEdges(g, node.id, pat);
    for i := 0 to |edges|
      invariant Level(g, pat, start, matches, ids', done, ways', d)
      invariant QueueMatches(g, curr, queue', ids', ways') && visited' == ways'.Keys
      invariant visited <= visited' && visited' - visited <= g.nodes.Keys
      invariant visited' == visited ==> queue' == queue
      invariant node.id in ways' && ways'[node.id] == ways[node.id]
      invariant forall j :: 0 <= j < i ==> Other(edges[j], node.id) in g.nodes ==> Other(edges[j], node.id) in visited'
    {
      var e := edges[i];
      var m := Other(e, node.id);
      if m in visited' || m !in g.nodes {
        continue;
      }
      assert Hop(g, pat, node.id, e, m);
      var next := g.nodes[m];
      var nextPath := Path(p.nodes + [next], p.edges + [e]);
      ghost var way := Way(ways[node.id].ids + [m], ways[node.id].es + [e]);
      NextPath(g, curr, p, ways[node.id], e, m);
      if matches(next) {
        FirstTargetIsNearest(g, pat, start, matches, curr, ids', done, ways', d, node.id, e, m, nextPath);
        r := Found(next, nextPath);
        return;
      }
      Visit(g, pat, start, matches, ids', done, ways', d, node.id, e, m);
      Enqueue(g, curr, queue', ids', ways', next, nextPath, way);
      visited' := visited' + {m};
      queue' := queue' + [(next, nextPath)];
      ids', ways' := ids' + [m], ways'[m := way];
    }
    forall e, m | Hop(g, pat, node.id, e, m) ensures m in ways' {
      var j :| 0 <= j < |edges| && edges[j] == e;
    }
  }

  lemma NextPath(g: Graph, curr: Path, p: Path, w: Way, e: Edge, m: Id)
    requires PathOf(g, curr, p, w) && m in g.nodes
    ensures PathOf(g, curr, Path(p.nodes + [g.nodes[m]], p.edges + [e]), Way(w.ids + [m], w.es + [e]))
  {
    ExtendSnoc(g, curr, w.ids, w.es, e, m);
  }

  lemma Enqueue(g: Graph, curr: Path, queue: Queue, ids: seq<Id>, ways: map<Id, Way>, node: Node, p: Path, way: Way)
    requires QueueMatches(g, curr, queue, ids, ways) && node.id !in ways && PathOf(g, curr, p, way)
    ensures QueueMatches(g, curr, queue + [(node, p)], ids + [node.id], ways[node.id := way])
  {
    hide PathOf;
  }

  lemma ClosedGrows(g: Graph, pat: EdgePattern, done: set<Id>, ways: map<Id, Way>, v: Id, more: map<Id, Way>)
    requires Closed(g, pat, done, ways) && ways.Keys <= more.Keys
    requires forall e, m :: Hop(g, pat, v, e, m) ==> m in more
    ensures Closed(g, pat, done + {v}, more)
  {
    hide Hop;
  }

  /**
   * The result in terms of the stored edges and their ends: a path that goes on from the current one by
   * a walk to a matching node other than the start, with the fewest edges of all such walks; or nothing,
   * if there is no such walk.
   */
  ghost predicate ShortestAlong(g: Graph, pat: EdgePattern, start: Id, matches: Node -> bool, curr: Path, r: Found) {
    match r
    case NotFound => forall ids, es :: WalkAlong(g, pat, start, ids, es) ==> !Target(g, start, matches, ids[|es|])
    case Found(node, path) =>
      exists ids, es ::
        && WalkAlong(g, pat, start, ids, es) && Target(g, start, matches, ids[|es|])
        && GoesOn(g, curr, ids, es, path) && node == g.nodes[ids[|es|]]
        && forall xs, fs :: WalkAlong(g, pat, start, xs, fs) && Target(g, start, matches, xs[|fs|]) ==> |es| <= |fs|
  }

  lemma ShortestMeans(g: Graph, pat: EdgePattern, start: Id, matches: Node -> bool, curr: Path, r: Found)
    requires Inv(g) && TypesOk(pat) && Shortest(g, pat, start, matches, curr, r)
    ensures ShortestAlong(g, pat, start, matches, curr, r)
  {
    hide Inv, Hop, StepAlong, GoesOn, TypesOk, Extend;
    forall ids, es ensures WalkAlong(g, pat, start, ids, es) <==> IsWalk(g, pat, start, ids, es) {
      WalkMeans(g, pat, start, ids, es);
    }
    match r
    case NotFound =>
    case Found(node, path) =>
      var ids, es :|
        && IsWalk(g, pat, start, ids, es) && Target(g, start, matches, ids[|es|])
        && PathOf(g, curr, path, Way(ids, es)) && node == g.nodes[ids[|es|]]
        && forall xs, fs :: IsWalk(g, pat, start, xs, fs) && Target(g, start, matches, xs[|fs|]) ==> |es| <= |fs|;
      ExtendMeans(g, curr, ids, es, path);
      assert WalkAlong(g, pat, start, ids, es);
  }

  /**
   * Follows matching edges breadth first. It ends, and returns a walk to a matching node other than
   * the start with the fewest edges of any such walk, or nothing exactly when there is none.
   */
  method ExpandShortestPath(g: Graph, start: Node, pat: EdgePattern, matches: Node -> bool, curr: Path) returns (r: Found)
    requires Inv(g)
    ensures Shortest(g, pat, start.id, matches, curr, r)
    ensures TypesOk(pat) ==> ShortestAlong(g, pat, start.id, matches, curr, r)
  {
    r := Search(g, start, pat, matches, curr);
    if TypesOk(pat) {
      ShortestMeans(g, pat, start.id, matches, curr, r);
    }
  }

  /** The search loop. */
  method Search(g: Graph, start: Node, pat: EdgePattern, matches: Node -> bool, curr: Path) returns (r: Found)
    requires Inv(g)
    ensures Shortest(g, pat, start.id, matches, curr, r)
  {
    hide AdjInv, Hop, MatchingEdges, Level, Closed, PathOf, Shortest;
    var queue: Queue := [(start, curr)];
    var visited: set<Id> := {start.id};
    ghost var ids, done: set<Id>, ways, d: nat := [start.id], {}, map[start.id := Way([start.id], [])], 0;
    Begin(g, pat, start, matches, curr);
    while queue != []
      invariant visited == ways.Keys && QueueMatches(g, curr, queue, ids, ways)
      invariant Level(g, pat, start.id, matches, ids, done, ways, d) && Closed(g, pat, done, ways)
      invariant ids != [] ==> |ways[ids[0]].es| == d
      decreases g.nodes.Keys - visited, |queue|
    {
      var (node, p) := queue[0];
      ghost var v, before, processed := ids[0], ways, done;
      Dequeue(g, pat, start.id, matches, ids, done, ways, d);
      queue, ids, done := queue[1..], ids[1..], done + {v};
      var found, queue', visited';
      found, queue', visited', ids, ways := ExpandNode(g, pat, start.id, matches, curr, node, p, queue, visited, ids, done, ways, d);
      if found.Found? {
        return found;
      }
      ClosedGrows(g, pat, processed, before, v, ways);
      assert visited' != visited ==> g.nodes.Keys - visited' < g.nodes.Keys - visited;
      queue, visited := queue', visited';
      if ids != [] {
        Advance(g, pat, start.id, matches, ids, done, ways, d);
        d := |ways[ids[0]].es|;
      }
    }
    Exhausted(g, pat, start.id, matches, curr, done, ways, d);
    r := NotFound;
  }
}
