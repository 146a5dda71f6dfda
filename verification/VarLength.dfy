/** Enumeration of variable-length trails: paths that use no edge twice. */
module VarLength {
  import opened GraphStore
  import opened GraphPattern

  /** A path under extension and the node it ends at. */
  datatype Item = Item(node: Node, path: Path)

  predicate Used(p: Path, e: Edge) {
    exists f :: f in p.edges && f.id == e.id
  }

  /** The item one edge further. */
  function Grow(x: Item, e: Edge, next: Node): (y: Item) {
    Item(next, Path(x.path.nodes + [next], x.path.edges + [e]))
  }

  /** The extension of an item by one edge, unless the edge is used or leads nowhere. */
  function Child(g: Graph, x: Item, e: Edge): (r: seq<Item>) {
    var m := Other(e, x.node.id);
    if Used(x.path, e) || m !in g.nodes then [] else [Grow(x, e, g.nodes[m])]
  }

  function ChildrenVia(g: Graph, x: Item, es: seq<Edge>): (r: seq<Item>) {
    if es == [] then [] else ChildrenVia(g, x, es[..|es| - 1]) + Child(g, x, es[|es| - 1])
  }

  function Children(g: Graph, pat: EdgePattern, x: Item): (r: seq<Item>) {
    ChildrenVia(g, x, MatchingEdges(g, x.node.id, pat))
  }

  function ChildrenAll(g: Graph, pat: EdgePattern, xs: seq<Item>): (r: seq<Item>) {
    if xs == [] then [] else ChildrenAll(g, pat, xs[..|xs| - 1]) + Children(g, pat, xs[|xs| - 1])
  }

  /** All extensions of an item by h edges, level by level. */
  function Level(g: Graph, pat: EdgePattern, x: Item, h: nat): (r: seq<Item>) {
    if h == 0 then [x] else ChildrenAll(g, pat, Level(g, pat, x, h - 1))
  }

  function Matching(xs: seq<Item>, matches: Node -> bool): (r: seq<Item>) {
    if xs == [] then []
    else Matching(xs[..|xs| - 1], matches) + if matches(xs[|xs| - 1].node) then [xs[|xs| - 1]] else []
  }

  /** The matching items of a level, once it is far enough. */
  function Kept(xs: seq<Item>, h: nat, min: nat, matches: Node -> bool): (r: seq<Item>) {
    if h >= min then Matching(xs, matches) else []
  }

  /** The matching items of levels 1 to h that are at least `min` edges away. */
  function AnswersTo(g: Graph, pat: EdgePattern, x: Item, matches: Node -> bool, min: nat, h: nat): (r: seq<Item>) {
    if h == 0 then []
    else AnswersTo(g, pat, x, matches, min, h - 1) + Kept(Level(g, pat, x, h), h, min, matches)
  }

  lemma {:induction false} MatchingConcat(a: seq<Item>, b: seq<Item>, matches: Node -> bool)
    ensures Matching(a + b, matches) == Matching(a, matches) + Matching(b, matches)
  {
    if b == [] {
      assert a + b == a;
    } else {
      MatchingConcat(a, b[..|b| - 1], matches);
      assert (a + b)[..|a + b| - 1] == a + b[..|b| - 1];
    }
  }

  lemma KeptConcat(a: seq<Item>, b: seq<Item>, h: nat, min: nat, matches: Node -> bool)
    ensures Kept(a + b, h, min, matches) == Kept(a, h, min, matches) + Kept(b, h, min, matches)
  {
    hide Matching;
    MatchingConcat(a, b, matches);
  }

  // ---------------------------------------------------------------- the enumeration

  /** A queued item with the number of edges added so far. */
  datatype Pending = Pending(item: Item, hops: nat)

  function Tag(xs: seq<Item>, h: nat): (q: seq<Pending>) {
    seq(|xs|, i requires 0 <= i < |xs| => Pending(xs[i], h))
  }

  function Queued(xs: seq<Item>, h: nat, max: nat): (q: seq<Pending>) {
    if h < max then Tag(xs, h) else []
  }

  lemma QueuedConcat(a: seq<Item>, b: seq<Item>, h: nat, max: nat)
    ensures Queued(a + b, h, max) == Queued(a, h, max) + Queued(b, h, max)
  {
  }

  lemma ChildrenSnoc(g: Graph, x: Item, es: seq<Edge>, j: nat)
    requires j < |es|
    ensures ChildrenVia(g, x, es[..j + 1]) == ChildrenVia(g, x, es[..j]) + Child(g, x, es[j])
  {
    hide Child;
    assert es[..j + 1][..j] == es[..j];
  }

  /** Follows every matching edge of one item, collecting results and queueing what may be extended further. */
  method ExpandItem(g: Graph, pat: EdgePattern, matches: Node -> bool, x: Item, h: nat, min: nat, max: nat,
                    queue: seq<Pending>, results: seq<Item>)
    returns (queue': seq<Pending>, results': seq<Item>)
    ensures queue' == queue + Queued(Children(g, pat, x), h + 1, max)
    ensures results' == results + Kept(Children(g, pat, x), h + 1, min, matches)
  {
    hide MatchingEdges, ChildrenVia, Used, Kept, Queued, Grow;
    queue', results' := queue, results;
    var edges := MatchingEdges(g, x.node.id, pat);
    ghost var kids: seq<Item> := [];
    assert edges[..0] == [];
    NoChildren(g, x, h + 1, min, max, matches);
    for j := 0 to |edges|
      invariant kids == ChildrenVia(g, x, edges[..j])
      invariant queue' == queue + Queued(kids, h + 1, max)
      invariant results' == results + Kept(kids, h + 1, min, matches)
    {
      ChildrenSnoc(g, x, edges, j);
      var e := edges[j];
      if Used(x.path, e) {
        continue;
      }
      var m := Other(e, x.node.id);
      if m !in g.nodes {
        continue;
      }
      var next := Grow(x, e, g.nodes[m]);
      KeptConcat(kids, [next], h + 1, min, matches);
      QueuedConcat(kids, [next], h + 1, max);
      OneChild(next, h + 1, min, max, matches);
      if h + 1 >= min && matches(next.node) {
        results' := results' + [next];
      }
      if h + 1 < max {
        queue' := queue' + [Pending(next, h + 1)];
      }
      kids := kids + [next];
    }
    assert edges[..|edges|] == edges;
  }

  lemma NoChildren(g: Graph, x: Item, h: nat, min: nat, max: nat, matches: Node -> bool)
    ensures ChildrenVia(g, x, []) == [] && Kept([], h, min, matches) == [] && Queued([], h, max) == []
  {
    assert Tag([], h) == [];
  }

  lemma OneChild(x: Item, h: nat, min: nat, max: nat, matches: Node -> bool)
    ensures Kept([x], h, min, matches) == if h >= min && matches(x.node) then [x] else []
    ensures Queued([x], h, max) == if h < max then [Pending(x, h)] else []
  {
    hide Matching;
    MatchingOne(x, matches);
    assert Tag([x], h) == [Pending(x, h)];
  }

  lemma MatchingOne(x: Item, matches: Node -> bool)
    ensures Matching([x], matches) == if matches(x.node) then [x] else []
  {
    assert [x][..0] == [];
  }

  /**
   * Half way through level h, at its item i: the queue holds the rest of the level and then the
   * children found so far, and the results are the answers up to level h and those children.
   */
  ghost predicate Halfway(g: Graph, pat: EdgePattern, x: Item, matches: Node -> bool, min: nat, max: nat,
                          h: nat, i: nat, queue: seq<Pending>, results: seq<Item>) {
    var level := Level(g, pat, x, h);
    && h < max && i <= |level| && (h + 1 < max && i == |level| ==> level == [])
    && var next := ChildrenAll(g, pat, level[..i]);
    && queue == Tag(level[i..], h) + Queued(next, h + 1, max)
    && results == AnswersTo(g, pat, x, matches, min, h) + Kept(next, h + 1, min, matches)
  }

  lemma NoneFurther(g: Graph, pat: EdgePattern)
    ensures ChildrenAll(g, pat, []) == []
  {
  }

  lemma Begin(g: Graph, pat: EdgePattern, x: Item, matches: Node -> bool, min: nat, max: nat)
    requires max > 0
    ensures Halfway(g, pat, x, matches, min, max, 0, 0, [Pending(x, 0)], [])
  {
    hide Children;
    var level := Level(g, pat, x, 0);
    assert level == [x] && level[..0] == [] && level[0..] == [x];
    assert Tag([x], 0) == [Pending(x, 0)];
  }

  /** The next pending item is item i of level h. */
  lemma Front(g: Graph, pat: EdgePattern, x: Item, matches: Node -> bool, min: nat, max: nat,
              h: nat, i: nat, queue: seq<Pending>, results: seq<Item>)
    requires Halfway(g, pat, x, matches, min, max, h, i, queue, results) && queue != []
    ensures i < |Level(g, pat, x, h)| && queue[0] == Pending(Level(g, pat, x, h)[i], h)
  {
    hide ChildrenAll, Level, AnswersTo, Kept;
    var level := Level(g, pat, x, h);
    if i == |level| {
      assert level[i..] == [];
      assert h + 1 < max;
      assert level[..i] == [];
      NoneFurther(g, pat);
    }
  }

  lemma AllSnoc(g: Graph, pat: EdgePattern, level: seq<Item>, i: nat)
    requires i < |level|
    ensures ChildrenAll(g, pat, level[..i + 1]) == ChildrenAll(g, pat, level[..i]) + Children(g, pat, level[i])
  {
    hide Children;
    assert level[..i + 1][..i] == level[..i];
  }

  /** Taking the next item off the queue and expanding it moves one item further in the level. */
  lemma Advance(g: Graph, pat: EdgePattern, x: Item, matches: Node -> bool, min: nat, max: nat,
                h: nat, i: nat, queue: seq<Pending>, results: seq<Item>)
    requires Halfway(g, pat, x, matches, min, max, h, i, queue, results) && i < |Level(g, pat, x, h)|
    requires queue != []
    ensures var kids := Children(g, pat, Level(g, pat, x, h)[i]);
            var last := i + 1 == |Level(g, pat, x, h)| && h + 1 < max;
            Halfway(g, pat, x, matches, min, max, if last then h + 1 else h, if last then 0 else i + 1,
                    queue[1..] + Queued(kids, h + 1, max), results + Kept(kids, h + 1, min, matches))
  {
    hide ChildrenAll, Level, AnswersTo, Kept, Children, Halfway;
    var level := Level(g, pat, x, h);
    var kids := Children(g, pat, level[i]);
    var found := ChildrenAll(g, pat, level[..i]);
    AllSnoc(g, pat, level, i);
    KeptConcat(found, kids, h + 1, min, matches);
    QueuedConcat(found, kids, h + 1, max);
    HalfwayParts(g, pat, x, matches, min, max, h, i, queue, results);
    assert Tag(level[i..], h) == [Pending(level[i], h)] + Tag(level[i + 1..], h);
    assert queue[1..] + Queued(kids, h + 1, max) == Tag(level[i + 1..], h) + Queued(found + kids, h + 1, max);
    var results' := results + Kept(kids, h + 1, min, matches);
    assert results' == AnswersTo(g, pat, x, matches, min, h) + Kept(found + kids, h + 1, min, matches);
    if i + 1 == |level| && h + 1 < max {
      assert level[..i + 1] == level && level[i + 1..] == [];
      NextLevel(g, pat, x, matches, min, max, h, results');
    } else {
      HalfwayFrom(g, pat, x, matches, min, max, h, i + 1, results');
    }
  }

  lemma HalfwayParts(g: Graph, pat: EdgePattern, x: Item, matches: Node -> bool, min: nat, max: nat,
                     h: nat, i: nat, queue: seq<Pending>, results: seq<Item>)
    requires Halfway(g, pat, x, matches, min, max, h, i, queue, results)
    ensures var level := Level(g, pat, x, h);
            && h < max && i <= |level| && (h + 1 < max && i == |level| ==> level == [])
            && var next := ChildrenAll(g, pat, level[..i]);
            && queue == Tag(level[i..], h) + Queued(next, h + 1, max)
            && results == AnswersTo(g, pat, x, matches, min, h) + Kept(next, h + 1, min, matches)
  {
    hide ChildrenAll, Level, AnswersTo, Kept, Tag, Queued;
  }

  lemma HalfwayFrom(g: Graph, pat: EdgePattern, x: Item, matches: Node -> bool, min: nat, max: nat,
                    h: nat, i: nat, results: seq<Item>)
    requires h < max && i <= |Level(g, pat, x, h)|
    requires h + 1 < max && i == |Level(g, pat, x, h)| ==> Level(g, pat, x, h) == []
    requires var next := ChildrenAll(g, pat, Level(g, pat, x, h)[..i]);
             results == AnswersTo(g, pat, x, matches, min, h) + Kept(next, h + 1, min, matches)
    ensures var next := ChildrenAll(g, pat, Level(g, pat, x, h)[..i]);
            Halfway(g, pat, x, matches, min, max, h, i,
                    Tag(Level(g, pat, x, h)[i..], h) + Queued(next, h + 1, max), results)
  {
    hide ChildrenAll, Level, AnswersTo, Kept, Tag, Queued;
  }

  /** When a level is finished, its children are the next level. */
  lemma NextLevel(g: Graph, pat: EdgePattern, x: Item, matches: Node -> bool, min: nat, max: nat,
                  h: nat, results: seq<Item>)
    requires h + 1 < max
    requires var next := ChildrenAll(g, pat, Level(g, pat, x, h));
             results == AnswersTo(g, pat, x, matches, min, h) + Kept(next, h + 1, min, matches)
    ensures var next := ChildrenAll(g, pat, Level(g, pat, x, h));
            Halfway(g, pat, x, matches, min, max, h + 1, 0, [] + Queued(next, h + 1, max), results)
  {
    hide ChildrenAll, Children, Matching;
    var next := Level(g, pat, x, h + 1);
    NoneFurther(g, pat);
    assert next[..0] == [] && next[0..] == next;
    assert Kept([], h + 2, min, matches) == [] by { NoMatch(matches); }
    HalfwayFrom(g, pat, x, matches, min, max, h + 1, 0, results);
    assert Tag(next, h + 1) + Queued([], h + 2, max) == [] + Queued(next, h + 1, max);
  }

  lemma NoMatch(matches: Node -> bool)
    ensures Matching([], matches) == []
  {
  }

  /** Past an empty level there is nothing more. */
  lemma {:induction false} NothingFurther(g: Graph, pat: EdgePattern, x: Item, matches: Node -> bool, min: nat, h: nat, k: nat)
    requires h <= k && Level(g, pat, x, h) == []
    ensures AnswersTo(g, pat, x, matches, min, k) == AnswersTo(g, pat, x, matches, min, h)
    ensures Level(g, pat, x, k) == []
  {
    hide Children, Matching;
    if h < k {
      NothingFurther(g, pat, x, matches, min, h, k - 1);
      NoneFurther(g, pat);
      NoMatch(matches);
    }
  }

  lemma Finish(g: Graph, pat: EdgePattern, x: Item, matches: Node -> bool, min: nat, max: nat, h: nat, i: nat, results: seq<Item>)
    requires Halfway(g, pat, x, matches, min, max, h, i, [], results)
    ensures results == AnswersTo(g, pat, x, matches, min, max)
  {
    hide ChildrenAll, Children, Halfway, Kept;
    HalfwayParts(g, pat, x, matches, min, max, h, i, [], results);
    var level := Level(g, pat, x, h);
    assert |Tag(level[i..], h)| == 0;
    assert level[..i] == level;
    assert Level(g, pat, x, h + 1) == ChildrenAll(g, pat, level);
    assert results == AnswersTo(g, pat, x, matches, min, h + 1);
    if h + 1 < max {
      NoneFurther(g, pat);
      NothingFurther(g, pat, x, matches, min, h + 1, max);
    }
  }

  /**
   * Enumerates breadth first all extensions of the current path by min..max edges. The loop ends
   * because each round finishes an item of one level, and there are at most `max` levels.
   */
  method ExpandVarLength(g: Graph, pat: EdgePattern, start: Node, curr: Path, matches: Node -> bool, min: nat, max: nat)
    returns (results: seq<Item>)
    ensures results == AnswersTo(g, pat, Item(start, curr), matches, min, max)
    ensures Inv(g) && TypesOk(pat) ==> AllTrails(g, pat, Item(start, curr), matches, min, max, results)
  {
    hide *;
    ghost var x := Item(start, curr);
    ghost var h: nat, i: nat := 0, 0;
    results := [];
    var queue: seq<Pending> := [Pending(Item(start, curr), 0)];
    if max > 0 {
      Begin(g, pat, x, matches, min, max);
    }
    while queue != []
      invariant max == 0 ==> queue == [] || queue == [Pending(x, 0)]
      invariant max == 0 ==> results == [] && h == i == 0
      invariant max > 0 ==> Halfway(g, pat, x, matches, min, max, h, i, queue, results)
      invariant h <= max && i <= |Level(g, pat, x, h)|
      decreases max - h, |Level(g, pat, x, h)| - i, |queue|
    {
      var next := queue[0];
      if max > 0 {
        Front(g, pat, x, matches, min, max, h, i, queue, results);
        HalfwayParts(g, pat, x, matches, min, max, h, i, queue, results);
      }
      if next.hops >= max {
        queue := queue[1..];
        continue;
      }
      Advance(g, pat, x, matches, min, max, h, i, queue, results);
      queue, results := ExpandItem(g, pat, matches, next.item, next.hops, min, max, queue[1..], results);
      if i + 1 == |Level(g, pat, x, h)| && h + 1 < max {
        h, i := h + 1, 0;
      } else {
        i := i + 1;
      }
    }
    if max > 0 {
      Finish(g, pat, x, matches, min, max, h, i, results);
    } else {
      NoAnswers(g, pat, x, matches, min);
    }
    if Inv(g) && TypesOk(pat) {
      AnswersExact(g, pat, x, matches, min, max);
    }
  }

  lemma NoAnswers(g: Graph, pat: EdgePattern, x: Item, matches: Node -> bool, min: nat)
    ensures AnswersTo(g, pat, x, matches, min, 0) == []
  {
  }

  // ---------------------------------------------------------------- what is enumerated

  /** A walk that uses no edge twice and none of the edges of the path before it. */
  ghost predicate IsTrail(g: Graph, pat: EdgePattern, x: Item, ids: seq<Id>, es: seq<Edge>) {
    && IsWalk(g, pat, x.node.id, ids, es)
    && (forall i :: 0 <= i < |es| ==> !Used(x.path, es[i]))
    && (forall i, j :: 0 <= i < j < |es| ==> es[i].id != es[j].id)
  }

  /** Item y is x extended along the given trail. */
  ghost predicate Along(g: Graph, pat: EdgePattern, x: Item, ids: seq<Id>, es: seq<Edge>, y: Item) {
    && IsTrail(g, pat, x, ids, es)
    && (forall i :: 0 < i < |ids| ==> ids[i] in g.nodes)
    && y.path == Extend(g, x.path, ids, es)
    && y.node == if es == [] then x.node else g.nodes[ids[|es|]]
  }

  ghost predicate Reaches(g: Graph, pat: EdgePattern, x: Item, h: nat, y: Item) {
    exists ids: seq<Id>, es: seq<Edge> :: |es| == h && Along(g, pat, x, ids, es, y)
  }

  /** A walk along stored edges that uses no edge twice and none of the edges of the path before it. */
  ghost predicate TrailAlong(g: Graph, pat: EdgePattern, x: Item, ids: seq<Id>, es: seq<Edge>) {
    && WalkAlong(g, pat, x.node.id, ids, es)
    && (forall i, f :: 0 <= i < |es| && f in x.path.edges ==> f.id != es[i].id)
    && (forall i, j :: 0 <= i < j < |es| ==> es[i].id != es[j].id)
  }

  /** Item y goes on from x by such a trail of h edges, and ends where it ends. */
  ghost predicate Extended(g: Graph, pat: EdgePattern, x: Item, h: nat, y: Item) {
    exists ids: seq<Id>, es: seq<Edge> ::
      && |es| == h && TrailAlong(g, pat, x, ids, es) && GoesOn(g, x.path, ids, es, y.path)
      && y.node == if es == [] then x.node else g.nodes[ids[|es|]]
  }

  lemma TrailMeans(g: Graph, pat: EdgePattern, x: Item, ids: seq<Id>, es: seq<Edge>, y: Item)
    requires Inv(g) && TypesOk(pat)
    ensures Along(g, pat, x, ids, es, y)
       <==> && TrailAlong(g, pat, x, ids, es) && GoesOn(g, x.path, ids, es, y.path)
            && y.node == if es == [] then x.node else g.nodes[ids[|es|]]
  {
    hide Inv, IsWalk, WalkAlong, TypesOk, Extend;
    WalkMeans(g, pat, x.node.id, ids, es);
    WalkEnds(g, pat, x.node.id, ids, es);
    if WalkAlong(g, pat, x.node.id, ids, es) {
      ExtendMeans(g, x.path, ids, es, y.path);
    }
  }

  lemma WalkEnds(g: Graph, pat: EdgePattern, n: Id, ids: seq<Id>, es: seq<Edge>)
    ensures WalkAlong(g, pat, n, ids, es) ==> |ids| == |es| + 1 && forall i :: 0 < i < |ids| ==> ids[i] in g.nodes
  {
    if WalkAlong(g, pat, n, ids, es) {
      forall i | 0 < i < |ids| ensures ids[i] in g.nodes {
        assert StepAlong(g, pat, ids[i - 1], es[i - 1], ids[i]);
      }
    }
  }

  lemma ReachesMeans(g: Graph, pat: EdgePattern, x: Item, h: nat, y: Item)
    requires Inv(g) && TypesOk(pat)
    ensures Reaches(g, pat, x, h, y) <==> Extended(g, pat, x, h, y)
  {
    hide Inv, Along, TrailAlong, TypesOk;
    if ids: seq<Id>, es: seq<Edge> :| |es| == h && Along(g, pat, x, ids, es, y) {
      TrailMeans(g, pat, x, ids, es, y);
    }
    if Extended(g, pat, x, h, y) {
      var ids: seq<Id>, es: seq<Edge> :|
        && |es| == h && TrailAlong(g, pat, x, ids, es) && GoesOn(g, x.path, ids, es, y.path)
        && y.node == if es == [] then x.node else g.nodes[ids[|es|]];
      TrailMeans(g, pat, x, ids, es, y);
    }
  }

  /**
   * The answers are all trails of max(1, min) to max further edges that end at a matching node:
   * every one, nothing else, each once, and shorter ones first.
   */
  ghost predicate AllTrails(g: Graph, pat: EdgePattern, x: Item, matches: Node -> bool, min: nat, max: nat, results: seq<Item>) {
    && (forall y :: y in results <==> exists h: nat :: 1 <= h <= max && min <= h && Extended(g, pat, x, h, y) && matches(y.node))
    && (forall i, j :: 0 <= i < j < |results| ==> results[i].path != results[j].path)
    && (forall i, j :: 0 <= i < j < |results| ==> |results[i].path.edges| <= |results[j].path.edges|)
  }

  // Membership.

  lemma {:induction false} InChildrenVia(g: Graph, x: Item, es: seq<Edge>, y: Item)
    ensures y in ChildrenVia(g, x, es) <==> exists e :: e in es && y in Child(g, x, e)
  {
    hide Child;
    if es != [] {
      InChildrenVia(g, x, es[..|es| - 1], y);
      assert es == es[..|es| - 1] + [es[|es| - 1]];
    }
  }

  lemma {:induction false} InChildrenAll(g: Graph, pat: EdgePattern, xs: seq<Item>, y: Item)
    ensures y in ChildrenAll(g, pat, xs) <==> exists p :: p in xs && y in Children(g, pat, p)
  {
    hide Children;
    if xs != [] {
      InChildrenAll(g, pat, xs[..|xs| - 1], y);
      assert xs == xs[..|xs| - 1] + [xs[|xs| - 1]];
    }
  }

  /** A child is its parent one hop further along an unused edge. */
  lemma ChildIsHop(g: Graph, pat: EdgePattern, p: Item, y: Item)
    ensures y in Children(g, pat, p) <==>
              exists e: Edge :: Hop(g, pat, p.node.id, e, Other(e, p.node.id)) && !Used(p.path, e)
                                && y == Grow(p, e, g.nodes[Other(e, p.node.id)])
  {
    hide Used, MatchingEdges, ChildrenVia;
    var es := MatchingEdges(g, p.node.id, pat);
    InChildrenVia(g, p, es, y);
    if e: Edge :| Hop(g, pat, p.node.id, e, Other(e, p.node.id)) && !Used(p.path, e)
                  && y == Grow(p, e, g.nodes[Other(e, p.node.id)]) {
      assert y in Child(g, p, e);
    }
  }

  /** Extending along a trail and then by an unused hop is extending along the longer trail. */
  lemma TrailSnoc(g: Graph, pat: EdgePattern, x: Item, ids: seq<Id>, es: seq<Edge>, p: Item, e: Edge, m: Id)
    requires Inv(g) && Along(g, pat, x, ids, es, p)
    requires Hop(g, pat, p.node.id, e, m) && !Used(p.path, e)
    ensures Along(g, pat, x, ids + [m], es + [e], Grow(p, e, g.nodes[m]))
  {
    hide Inv, Used, IsWalk, MatchingEdges;
    EndNode(g, pat, x, ids, es, p);
    WalkSnoc(g, pat, x.node.id, ids, es, e, m);
    ExtendSnoc(g, x.path, ids, es, e, m);
    UsedExtended(x.path, p.path, es, e);
  }

  lemma EndNode(g: Graph, pat: EdgePattern, x: Item, ids: seq<Id>, es: seq<Edge>, p: Item)
    requires Inv(g) && Along(g, pat, x, ids, es, p)
    ensures |ids| == |es| + 1 && ids[|es|] == p.node.id
  {
    hide Used, Hop;
  }

  lemma UsedExtended(p: Path, q: Path, es: seq<Edge>, e: Edge)
    requires q.edges == p.edges + es
    ensures Used(q, e) <==> Used(p, e) || exists i :: 0 <= i < |es| && es[i].id == e.id
  {
    if i :| 0 <= i < |es| && es[i].id == e.id {
      assert es[i] in q.edges;
    }
  }

  lemma TrailPrefix(g: Graph, pat: EdgePattern, x: Item, ids: seq<Id>, es: seq<Edge>, y: Item)
    returns (p: Item)
    requires Inv(g) && Along(g, pat, x, ids, es, y) && es != []
    ensures |ids| == |es| + 1 && Along(g, pat, x, ids[..|es|], es[..|es| - 1], p) && y in Children(g, pat, p)
  {
    hide Inv, Used, IsWalk, MatchingEdges, Children;
    var n := |es| - 1;
    WalkPrefix(g, pat, x.node.id, ids, es);
    WalkLength(g, pat, x.node.id, ids, es);
    var ids', es' := ids[..n + 1], es[..n];
    assert ids == ids' + [ids[n + 1]] && es == es' + [es[n]];
    p := Item(if n == 0 then x.node else g.nodes[ids[n]], Extend(g, x.path, ids', es'));
    EndNode(g, pat, x, ids', es', p);
    ExtendSnoc(g, x.path, ids', es', es[n], ids[n + 1]);
    UsedExtended(x.path, p.path, es', es[n]);
    ChildIsHop(g, pat, p, y);
  }

  lemma WalkLength(g: Graph, pat: EdgePattern, n: Id, ids: seq<Id>, es: seq<Edge>)
    requires IsWalk(g, pat, n, ids, es)
    ensures |ids| == |es| + 1 && ids[0] == n
  {
  }

  /** Level h holds exactly the extensions by trails of h edges. */
  lemma {:induction false} LevelExact(g: Graph, pat: EdgePattern, x: Item, h: nat, y: Item)
    requires Inv(g)
    ensures y in Level(g, pat, x, h) <==> Reaches(g, pat, x, h, y)
  {
    hide Along, Children, ChildrenAll, Inv;
    if h == 0 {
      if y == x {
        AlongNothing(g, pat, x);
      }
      if ids: seq<Id>, es: seq<Edge> :| |es| == 0 && Along(g, pat, x, ids, es, y) {
        OnlyItself(g, pat, x, ids, es, y);
      }
    } else {
      InChildrenAll(g, pat, Level(g, pat, x, h - 1), y);
      if p :| p in Level(g, pat, x, h - 1) && y in Children(g, pat, p) {
        LevelExact(g, pat, x, h - 1, p);
        var ids, es :| |es| == h - 1 && Along(g, pat, x, ids, es, p);
        ChildReached(g, pat, x, ids, es, p, y);
      }
      if ids: seq<Id>, es: seq<Edge> :| |es| == h && Along(g, pat, x, ids, es, y) {
        var p := TrailPrefix(g, pat, x, ids, es, y);
        var ids', es' := ids[..|es|], es[..|es| - 1];
        assert |es'| == h - 1 && Along(g, pat, x, ids', es', p);
        LevelExact(g, pat, x, h - 1, p);
      }
    }
  }

  lemma AlongNothing(g: Graph, pat: EdgePattern, x: Item)
    ensures Along(g, pat, x, [x.node.id], [], x)
  {
    var p := Extend(g, x.path, [x.node.id], []);
    assert p.nodes == x.path.nodes && p.edges == x.path.edges;
  }

  lemma OnlyItself(g: Graph, pat: EdgePattern, x: Item, ids: seq<Id>, es: seq<Edge>, y: Item)
    requires es == [] && Along(g, pat, x, ids, es, y)
    ensures y == x
  {
    assert y.path.nodes == x.path.nodes && y.path.edges == x.path.edges;
  }

  lemma ChildReached(g: Graph, pat: EdgePattern, x: Item, ids: seq<Id>, es: seq<Edge>, p: Item, y: Item)
    requires Inv(g) && Along(g, pat, x, ids, es, p) && y in Children(g, pat, p)
    ensures Reaches(g, pat, x, |es| + 1, y)
  {
    hide Along, Children, Inv, Used, MatchingEdges;
    ChildIsHop(g, pat, p, y);
    var e :| Hop(g, pat, p.node.id, e, Other(e, p.node.id)) && !Used(p.path, e)
             && y == Grow(p, e, g.nodes[Other(e, p.node.id)]);
    TrailSnoc(g, pat, x, ids, es, p, e, Other(e, p.node.id));
    assert |es + [e]| == |es| + 1;
  }

  // No duplicates.

  ghost predicate DistinctPaths(xs: seq<Item>) {
    forall i, j :: 0 <= i < j < |xs| ==> xs[i].path != xs[j].path
  }

  lemma DistinctConcat(a: seq<Item>, b: seq<Item>)
    requires DistinctPaths(a) && DistinctPaths(b)
    requires forall y, z :: y in a && z in b ==> y.path != z.path
    ensures DistinctPaths(a + b)
  {
  }

  /** What a child's path says: the parent's path, and the edge taken. */
  lemma ParentOf(g: Graph, p: Item, es: seq<Edge>, y: Item)
    requires y in ChildrenVia(g, p, es)
    ensures y.path.edges != [] && y.path.nodes != [] && y.path.edges[|y.path.edges| - 1] in es
    ensures y.path.edges[..|y.path.edges| - 1] == p.path.edges && y.path.nodes[..|y.path.nodes| - 1] == p.path.nodes
  {
    hide ChildrenVia, Used;
    InChildrenVia(g, p, es, y);
  }

  lemma {:induction false} ChildrenDistinct(g: Graph, x: Item, es: seq<Edge>)
    requires DistinctIds(es)
    ensures DistinctPaths(ChildrenVia(g, x, es))
  {
    hide Used;
    if es != [] {
      var front, last := es[..|es| - 1], es[|es| - 1];
      ChildrenDistinct(g, x, front);
      forall y, z | y in ChildrenVia(g, x, front) && z in Child(g, x, last) ensures y.path != z.path {
        ParentOf(g, x, front, y);
        assert z.path.edges[|z.path.edges| - 1] == last;
        assert last !in front;
      }
      DistinctConcat(ChildrenVia(g, x, front), Child(g, x, last));
    }
  }

  lemma {:induction false} AllDistinct(g: Graph, pat: EdgePattern, xs: seq<Item>)
    requires Inv(g) && TypesOk(pat) && DistinctPaths(xs)
    ensures DistinctPaths(ChildrenAll(g, pat, xs))
  {
    hide Inv, ChildrenVia, MatchingEdges;
    if xs != [] {
      var front, last := xs[..|xs| - 1], xs[|xs| - 1];
      AllDistinct(g, pat, front);
      MatchingEdgesExact(g, last.node.id, pat);
      ChildrenDistinct(g, last, MatchingEdges(g, last.node.id, pat));
      forall y, z | y in ChildrenAll(g, pat, front) && z in Children(g, pat, last) ensures y.path != z.path {
        InChildrenAll(g, pat, front, y);
        var p :| p in front && y in Children(g, pat, p);
        ParentOf(g, p, MatchingEdges(g, p.node.id, pat), y);
        ParentOf(g, last, MatchingEdges(g, last.node.id, pat), z);
        var i :| 0 <= i < |front| && front[i] == p;
        assert xs[i].path != xs[|front|].path;
      }
      DistinctConcat(ChildrenAll(g, pat, front), Children(g, pat, last));
    }
  }

  lemma {:induction false} LevelDistinct(g: Graph, pat: EdgePattern, x: Item, h: nat)
    requires Inv(g) && TypesOk(pat)
    ensures DistinctPaths(Level(g, pat, x, h))
  {
    hide Inv, ChildrenAll, TypesOk;
    if h > 0 {
      LevelDistinct(g, pat, x, h - 1);
      AllDistinct(g, pat, Level(g, pat, x, h - 1));
    }
  }

  // The answers.

  lemma {:induction false} MatchingKeeps(xs: seq<Item>, matches: Node -> bool)
    ensures forall y :: y in Matching(xs, matches) <==> y in xs && matches(y.node)
    ensures DistinctPaths(xs) ==> DistinctPaths(Matching(xs, matches))
  {
    if xs != [] {
      var front, last := xs[..|xs| - 1], xs[|xs| - 1];
      MatchingKeeps(front, matches);
      assert xs == front + [last];
      if DistinctPaths(xs) {
        assert last == xs[|front|];
        DistinctConcat(Matching(front, matches), if matches(last.node) then [last] else []);
      }
    }
  }

  lemma ReachLength(g: Graph, pat: EdgePattern, x: Item, h: nat, y: Item)
    requires Reaches(g, pat, x, h, y)
    ensures |y.path.edges| == |x.path.edges| + h
  {
    hide Hop, Used;
    var ids, es :| |es| == h && Along(g, pat, x, ids, es, y);
    assert y.path == Extend(g, x.path, ids, es);
  }

  lemma {:induction false} AnswersMembers(g: Graph, pat: EdgePattern, x: Item, matches: Node -> bool, min: nat, max: nat, y: Item)
    requires Inv(g)
    ensures y in AnswersTo(g, pat, x, matches, min, max) <==>
              exists h: nat :: 1 <= h <= max && min <= h && Reaches(g, pat, x, h, y) && matches(y.node)
  {
    hide Inv, Level, Reaches, Matching;
    if max > 0 {
      AnswersMembers(g, pat, x, matches, min, max - 1, y);
      LevelExact(g, pat, x, max, y);
      MatchingKeeps(Level(g, pat, x, max), matches);
    }
  }

  ghost predicate AscendingLengths(xs: seq<Item>) {
    forall i, j :: 0 <= i < j < |xs| ==> |xs[i].path.edges| <= |xs[j].path.edges|
  }

  lemma {:induction false} AnswersOrdered(g: Graph, pat: EdgePattern, x: Item, matches: Node -> bool, min: nat, max: nat)
    requires Inv(g) && TypesOk(pat)
    ensures DistinctPaths(AnswersTo(g, pat, x, matches, min, max))
    ensures AscendingLengths(AnswersTo(g, pat, x, matches, min, max))
  {
    hide Inv, Level, Reaches, Matching, MatchingEdges;
    if max > 0 {
      AnswersOrdered(g, pat, x, matches, min, max - 1);
      var before, level := AnswersTo(g, pat, x, matches, min, max - 1), Level(g, pat, x, max);
      LevelDistinct(g, pat, x, max);
      MatchingKeeps(level, matches);
      var now := Kept(level, max, min, matches);
      forall y | y in before ensures |y.path.edges| < |x.path.edges| + max {
        AnswersMembers(g, pat, x, matches, min, max - 1, y);
        var h: nat :| 1 <= h <= max - 1 && min <= h && Reaches(g, pat, x, h, y) && matches(y.node);
        ReachLength(g, pat, x, h, y);
      }
      forall y | y in now ensures |y.path.edges| == |x.path.edges| + max {
        LevelExact(g, pat, x, max, y);
        ReachLength(g, pat, x, max, y);
      }
      DistinctConcat(before, now);
    }
  }

  /** The enumeration is exact, without duplicates and in order of length. */
  lemma AnswersExact(g: Graph, pat: EdgePattern, x: Item, matches: Node -> bool, min: nat, max: nat)
    requires Inv(g) && TypesOk(pat)
    ensures AllTrails(g, pat, x, matches, min, max, AnswersTo(g, pat, x, matches, min, max))
  {
    hide Inv, AnswersTo, Reaches, MatchingEdges, Extended, TypesOk;
    AnswersOrdered(g, pat, x, matches, min, max);
    forall y ensures y in AnswersTo(g, pat, x, matches, min, max) <==>
                       exists h: nat :: 1 <= h <= max && min <= h && Extended(g, pat, x, h, y) && matches(y.node) {
      AnswersMembers(g, pat, x, matches, min, max, y);
      forall h: nat ensures Reaches(g, pat, x, h, y) <==> Extended(g, pat, x, h, y) {
        ReachesMeans(g, pat, x, h, y);
      }
    }
  }
}
