/** What a pattern with several edge types ought to match, and when the first-type scan matches just that. */
module PatternTypes {
  import opened Bytes
  import opened SortedEntries
  import opened GraphStore
  import opened GraphPattern
  import opened GraphCases

  /** A stored edge in the pattern's direction, of any of its types, that passes the properties. */
  ghost predicate Wanted(g: Graph, n: Id, pat: EdgePattern, e: Edge) {
    && e.id in g.edges && g.edges[e.id] == e && Touches(e, n, pat.direction)
    && AnyType(pat)(e) && pat.properties(e)
  }

  /** The pattern matches what is wanted, at every node of every consistent store. */
  ghost predicate MatchesWanted(pat: EdgePattern) {
    forall g, n, e :: Inv(g) ==> (e in MatchingEdges(g, n, pat) <==> Wanted(g, n, pat, e))
  }

  /** An edge that some store can hold: its type has no zero byte and its ids are not the last one. */
  ghost predicate CanBeStored(e: Edge) {
    NulFree(e.edgeType) && e.id < LAST_ID && e.src < LAST_ID && e.dst < LAST_ID
  }

  /** Every edge that the listed types and the properties let through is of the first type. */
  ghost predicate OnlyFirstType(pat: EdgePattern)
    requires pat.edgeTypes != []
  {
    forall e: Edge :: CanBeStored(e) && AnyType(pat)(e) && pat.properties(e) ==> e.edgeType == pat.edgeTypes[0]
  }

  /** A consistent store that holds just the given edge. */
  lemma StoreOf(e: Edge) returns (g: Graph)
    requires CanBeStored(e)
    ensures Inv(g) && g.edges == map[e.id := e]
  {
    hide Inv, AdjInv, AdjKey;
    EmptyInv();
    CountersKeep(EMPTY, LAST_ID, LAST_ID);
    g := EMPTY.(nextNode := LAST_ID, nextEdge := LAST_ID);
    SaveNodeKeeps(g, Plain(e.src));
    g := SaveNode(g, Plain(e.src));
    SaveNodeKeeps(g, Plain(e.dst));
    g := SaveNode(g, Plain(e.dst));
    SaveEdgeKeeps(g, e);
    g := SaveEdge(g, e);
  }

  function StartOf(e: Edge, direction: Direction): (n: Id) {
    if direction.Incoming? then e.dst else e.src
  }

  /**
   * A pattern with several types matches what is wanted, in every consistent store, if and only if
   * its types and properties let through edges of the first type only.
   */
  lemma SeveralTypesExactly(pat: EdgePattern)
    requires |pat.edgeTypes| > 1 && TypesOk(pat)
    ensures MatchesWanted(pat) <==> OnlyFirstType(pat)
  {
    hide Inv, MatchingEdges, AnyType;
    if MatchesWanted(pat) {
      forall e: Edge | CanBeStored(e) && AnyType(pat)(e) && pat.properties(e)
        ensures e.edgeType == pat.edgeTypes[0]
      {
        var g := StoreOf(e);
        var n := StartOf(e, pat.direction);
        MatchingEdgesExact(g, n, pat);
        assert Wanted(g, n, pat, e);
      }
    }
    if OnlyFirstType(pat) {
      forall g, n, e | Inv(g) ensures e in MatchingEdges(g, n, pat) <==> Wanted(g, n, pat, e) {
        MatchingEdgesExact(g, n, pat);
        if Wanted(g, n, pat, e) {
          StoredCan(g, e);
        }
      }
    }
  }

  lemma StoredCan(g: Graph, e: Edge)
    requires Inv(g) && e.id in g.edges && g.edges[e.id] == e
    ensures CanBeStored(e)
  {
    hide AdjInv;
    assert g.nodes[e.src].id == e.src && g.nodes[e.dst].id == e.dst;
  }

  // ---------------------------------------------------------------- the comparison the program uses

  predicate IsLetter(b: Byte) {
    0x41 <= b <= 0x5A || 0x61 <= b <= 0x7A
  }

  function Lower(b: Byte): (r: Byte) {
    if 0x41 <= b <= 0x5A then b + 0x20 else b
  }

  /** Equal bytes, but for the case of ASCII letters. */
  predicate EqualIgnoreCase(a: EdgeType, b: EdgeType) {
    |a| == |b| && forall i :: 0 <= i < |a| ==> Lower(a[i]) == Lower(b[i])
  }

  function SwitchCase(b: Byte): (r: Byte) {
    if 0x41 <= b <= 0x5A then b + 0x20 else if 0x61 <= b <= 0x7A then b - 0x20 else b
  }

  /** A pattern with no property filter, comparing types as the program does. */
  function Typed(direction: Direction, types: seq<EdgeType>): (pat: EdgePattern) {
    EdgePattern(direction, types, EqualIgnoreCase, (e: Edge) => true)
  }

  lemma NoLettersNoVariants(a: EdgeType, b: EdgeType)
    requires EqualIgnoreCase(a, b) && forall i :: 0 <= i < |a| ==> !IsLetter(a[i])
    ensures a == b
  {
    forall i | 0 <= i < |a| ensures a[i] == b[i] {
      assert Lower(a[i]) == Lower(b[i]);
    }
  }

  lemma Variant(a: EdgeType, i: nat) returns (b: EdgeType)
    requires i < |a| && IsLetter(a[i]) && NulFree(a)
    ensures b != a && EqualIgnoreCase(a, b) && NulFree(b)
  {
    b := a[i := SwitchCase(a[i])];
    assert b[i] != a[i];
  }

  /**
   * So for plain patterns: several types are matched as wanted if and only if they are all the same
   * type and that type has no letter.
   */
  lemma PlainTypesExactly(direction: Direction, types: seq<EdgeType>)
    requires |types| > 1 && forall t :: t in types ==> NulFree(t)
    ensures MatchesWanted(Typed(direction, types))
       <==> (forall t :: t in types ==> t == types[0]) && forall i :: 0 <= i < |types[0]| ==> !IsLetter(types[0][i])
  {
    hide MatchesWanted;
    var pat, first := Typed(direction, types), types[0];
    SeveralTypesExactly(pat);
    if OnlyFirstType(pat) {
      forall t | t in types ensures t == first {
        LetThrough(pat, t, t);
      }
      forall i | 0 <= i < |first| ensures !IsLetter(first[i]) {
        if IsLetter(first[i]) {
          var v := Variant(first, i);
          LetThrough(pat, first, v);
        }
      }
    }
    if (forall t :: t in types ==> t == first) && forall i :: 0 <= i < |first| ==> !IsLetter(first[i]) {
      forall e: Edge | CanBeStored(e) && AnyType(pat)(e) && pat.properties(e) ensures e.edgeType == first {
        var t :| t in pat.edgeTypes && pat.sameType(t, e.edgeType);
        NoLettersNoVariants(first, e.edgeType);
      }
    }
  }

  lemma LetThrough(pat: EdgePattern, t: EdgeType, u: EdgeType)
    requires pat.edgeTypes != [] && OnlyFirstType(pat) && t in pat.edgeTypes && pat.sameType(t, u) && NulFree(u)
    requires forall e :: pat.properties(e)
    ensures u == pat.edgeTypes[0]
  {
    var e := Edge(1, u, 1, 2, map[]);
    assert AnyType(pat)(e) && pat.properties(e) && CanBeStored(e);
  }

  /** Concretely: with an edge of type B from node 1, the pattern A or B does not find it. */
  lemma SecondTypeMissed()
    ensures var g, pat, e := Small([66]), Typed(Outgoing, [[65], [66]]), Edge(1, [66], 1, 2, map[]);
            && Run(EMPTY, SmallOps([66]), g) && Inv(g)
            && Wanted(g, 1, pat, e) && e !in MatchingEdges(g, 1, pat)
  {
    hide Inv, Run, MatchingEdges, AdjKey, Put;
    SmallReached([66]);
    var g, pat, e := Small([66]), Typed(Outgoing, [[65], [66]]), Edge(1, [66], 1, 2, map[]);
    assert g.edges == map[1 := e];
    assert [66] in pat.edgeTypes && pat.sameType([66], e.edgeType);
    MatchingEdgesExact(g, 1, pat);
  }
}
