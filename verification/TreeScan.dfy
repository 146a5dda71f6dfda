/** Scans of the B+tree: the full scan, and prefix and range scans that skip subtrees. */
module TreeScan {
  import opened Bytes
  import opened SortedEntries
  import opened BTree

  datatype End = Unbounded | Included(key: Key) | Excluded(key: Key)

  /** What a scan selects: the keys with a prefix, or the keys between two ends. */
  datatype Query = Prefix(prefix: Key) | Range(start: End, end: End)

  predicate AfterStart(start: End, k: Key) {
    match start
    case Unbounded => true
    case Included(s) => !Less(k, s)
    case Excluded(s) => Less(s, k)
  }

  predicate BeforeEnd(end: End, k: Key) {
    match end
    case Unbounded => true
    case Included(e) => !Less(e, k)
    case Excluded(e) => Less(k, e)
  }

  predicate Matches(q: Query, k: Key) {
    match q
    case Prefix(p) => p <= k
    case Range(start, end) => AfterStart(start, k) && BeforeEnd(end, k)
  }

  /** A prefix query asks for the extensions of its prefix, a range for the keys strictly between its ends and its included ends. */
  lemma MatchesExactly(q: Query, k: Key)
    ensures q.Prefix? ==> (Matches(q, k) <==> exists rest :: k == q.prefix + rest)
    ensures q.Range? ==>
              (Matches(q, k) <==>
               && (q.start.Unbounded? || Less(q.start.key, k) || (q.start.Included? && k == q.start.key))
               && (q.end.Unbounded? || Less(k, q.end.key) || (q.end.Included? && k == q.end.key)))
  {
    hide Weight;
    if q.Prefix? {
      if q.prefix <= k {
        assert k == q.prefix + k[|q.prefix|..];
      }
    } else {
      if !q.start.Unbounded? { Trichotomy(q.start.key, k); }
      if !q.end.Unbounded? { Trichotomy(k, q.end.key); }
    }
  }

  /** The entries a query selects, in order: the specification of a scan. */
  function Select(es: seq<Entry>, q: Query): (r: seq<Entry>) {
    if es == [] then []
    else if Matches(q, es[0].key) then [es[0]] + Select(es[1..], q)
    else Select(es[1..], q)
  }

  lemma {:induction false} SelectConcat(a: seq<Entry>, b: seq<Entry>, q: Query)
    ensures Select(a + b, q) == Select(a, q) + Select(b, q)
  {
    hide Matches;
    if a == [] {
      assert a + b == b;
    } else {
      SelectConcat(a[1..], b, q);
      assert (a + b)[1..] == a[1..] + b;
    }
  }

  lemma {:induction false} SelectNone(es: seq<Entry>, q: Query)
    requires forall e :: e in es ==> !Matches(q, e.key)
    ensures Select(es, q) == []
  {
    hide Matches;
    if es != [] {
      assert es[0] in es;
      SelectNone(es[1..], q);
    }
  }

  lemma {:induction false} SelectAll(es: seq<Entry>, q: Query)
    requires forall e :: e in es ==> Matches(q, e.key)
    ensures Select(es, q) == es
  {
    hide Matches;
    if es != [] {
      assert es[0] in es;
      SelectAll(es[1..], q);
    }
  }

  // ---------------------------------------------------------------- keys with a prefix

  /** A key with prefix p does not precede p. */
  lemma {:induction false} PrefixFirst(p: Key, x: Key)
    requires p <= x
    ensures !Less(x, p)
  {
    if p != [] {
      PrefixFirst(p[1..], x[1..]);
    }
  }

  /** A key at or after p without that prefix comes after every key that has it. */
  lemma {:induction false} AfterPrefix(p: Key, k: Key, x: Key)
    requires !Less(k, p) && !(p <= k) && p <= x
    ensures Less(x, k)
  {
    hide Weight;
    if p != [] && k != [] && x != [] && k[0] == p[0] {
      assert p == [p[0]] + p[1..] && k == [k[0]] + k[1..];
      AfterPrefix(p[1..], k[1..], x[1..]);
    }
  }

  // ---------------------------------------------------------------- full scan

  /** Appends every entry under a page to `out`. */
  method CollectEntries(node: Page, out: seq<Entry>) returns (r: seq<Entry>)
    ensures r == out + Flatten(node)
    decreases node
  {
    r := out;
    match node
    case Leaf(es) => r := r + es;
    case Branch(_, children) =>
      for i := 0 to |children|
        invariant r == out + FlattenAll(children[..i])
      {
        r := CollectEntries(children[i], r);
        FlattenSnoc(children, i);
      }
      assert children[..|children|] == children;
  }

  lemma FlattenSnoc(ps: seq<Page>, i: nat)
    requires i < |ps|
    ensures FlattenAll(ps[..i + 1]) == FlattenAll(ps[..i]) + Flatten(ps[i])
  {
    assert ps[..i + 1] == ps[..i] + [ps[i]];
    FlattenConcat(ps[..i], [ps[i]]);
  }

  lemma SelectSnoc(es: seq<Entry>, i: nat, q: Query)
    requires i < |es|
    ensures Select(es[..i + 1], q)
         == Select(es[..i], q) + if Matches(q, es[i].key) then [es[i]] else []
  {
    hide Matches;
    assert es[..i + 1] == es[..i] + [es[i]];
    SelectConcat(es[..i], [es[i]], q);
  }

  /** The selection from a list of pages grows by the selection from the next page. */
  lemma SelectPage(ps: seq<Page>, i: nat, q: Query)
    requires i < |ps|
    ensures Select(FlattenAll(ps[..i + 1]), q) == Select(FlattenAll(ps[..i]), q) + Select(Flatten(ps[i]), q)
  {
    hide *;
    FlattenSnoc(ps, i);
    SelectConcat(FlattenAll(ps[..i]), Flatten(ps[i]), q);
  }

  // ---------------------------------------------------------------- prefix scan

  /** No key of a child beyond a separator that passed the prefix, or before one not past it, matches. */
  lemma PrefixSkip(es: seq<Entry>, lo: Option<Key>, hi: Option<Key>, p: Key)
    requires forall e :: e in es ==> InBounds(e.key, lo, hi)
    requires || (lo.Some? && Less(p, lo.value) && !(p <= lo.value))
             || (hi.Some? && !Less(p, hi.value) && !(p <= hi.value))
    ensures Select(es, Prefix(p)) == []
  {
    hide Less, Weight, Select;
    forall e | e in es ensures !(p <= e.key) {
      if p <= e.key {
        PrefixFirst(p, e.key);
        if lo.Some? && Less(p, lo.value) && !(p <= lo.value) {
          AfterPrefix(p, lo.value, e.key);
        }
      }
    }
    SelectNone(es, Prefix(p));
  }

  /** The part of a sorted leaf before the prefix, and the part after the first key past it, select nothing. */
  lemma LeafPrefixEnds(es: seq<Entry>, start: nat, stop: nat, p: Key)
    requires Sorted(es) && start <= stop <= |es|
    requires Below(es[..start], p)
    requires stop < |es| ==> Less(p, es[stop].key) && !(p <= es[stop].key)
    ensures Select(es[..start], Prefix(p)) == []
    ensures Select(es[stop..], Prefix(p)) == []
  {
    hide Less, Weight, Select;
    forall e | e in es[..start] ensures !(p <= e.key) {
      if p <= e.key {
        PrefixFirst(p, e.key);
      }
    }
    SelectNone(es[..start], Prefix(p));
    forall e | e in es[stop..] ensures !(p <= e.key) {
      var j :| stop <= j < |es| && es[j] == e;
      if p <= e.key {
        AfterPrefix(p, es[stop].key, e.key);
      }
    }
    SelectNone(es[stop..], Prefix(p));
  }

  method LeafPrefix(es: seq<Entry>, p: Key, out: seq<Entry>) returns (r: seq<Entry>)
    requires Sorted(es)
    ensures r == out + Select(es, Prefix(p))
  {
    hide Less, Weight, Select, Search;
    var start := Search(Keys(es), p).index;
    assert Below(es[..start], p) by {
      assert forall j :: 0 <= j < start ==> Less(Keys(es)[j], p);
    }
    r := out;
    var j := start;
    LeafPrefixEnds(es, start, |es|, p);
    while j < |es|
      invariant start <= j <= |es|
      invariant r == out + Select(es[..j], Prefix(p))
    {
      SelectSnoc(es, j, Prefix(p));
      if p <= es[j].key {
        r := r + [es[j]];
      } else if Less(p, es[j].key) {
        LeafPrefixEnds(es, start, j, p);
        break;
      }
      j := j + 1;
    }
    assert es[|es|..] == [];
    SelectConcat(es[..j], es[j..], Prefix(p));
    assert es == es[..j] + es[j..];
  }

  /** The prefix scan of a subtree selects exactly the entries with the prefix, in order. */
  method CollectPrefix(node: Page, p: Key, out: seq<Entry>,
                       ghost lo: Option<Key>, ghost hi: Option<Key>, ghost depth: nat, ghost max: nat)
    returns (r: seq<Entry>)
    requires Wf(node, lo, hi, depth, max)
    ensures r == out + Select(Flatten(node), Prefix(p))
    decreases node
  {
    hide Less, Weight, Select;
    r := out;
    match node
    case Leaf(es) => r := LeafPrefix(es, p, r);
    case Branch(keys, children) =>
      SelectNone([], Prefix(p));
      for i := 0 to |children|
        invariant r == out + Select(FlattenAll(children[..i]), Prefix(p))
      {
        ghost var l, h := LowerAt(keys, lo, i), UpperAt(keys, hi, i);
        FlattenSorted(children[i], l, h, depth - 1, max);
        SelectPage(children, i, Prefix(p));
        if i > 0 && Less(p, keys[i - 1]) && !(p <= keys[i - 1]) {
          PrefixSkip(Flatten(children[i]), l, h, p);
        } else if i < |keys| && !Less(p, keys[i]) && !(p <= keys[i]) {
          PrefixSkip(Flatten(children[i]), l, h, p);
        } else {
          r := CollectPrefix(children[i], p, r, l, h, depth - 1, max);
        }
      }
      assert children[..|children|] == children;
  }

  // ---------------------------------------------------------------- range scan

  /** Where a leaf's entries first reach the start of the range. */
  function StartIndex(es: seq<Entry>, start: End): (i: nat)
    requires Sorted(es)
    ensures i <= |es|
    ensures forall j :: 0 <= j < i ==> !AfterStart(start, es[j].key)
    ensures forall j :: i <= j < |es| ==> AfterStart(start, es[j].key)
  {
    hide Less, Weight, Search;
    match start
    case Unbounded => 0
    case Included(k) => var r := Search(Keys(es), k); AroundSearch(es, k); r.index
    case Excluded(k) => var r := Search(Keys(es), k); AroundSearch(es, k); if r.Found? then r.index + 1 else r.index
  }

  lemma AroundSearch(es: seq<Entry>, k: Key)
    requires Sorted(es)
    ensures var r := Search(Keys(es), k);
            && (forall j :: 0 <= j < r.index ==> Less(es[j].key, k))
            && (forall j :: r.index <= j < |es| && (r.Missing? || j > r.index) ==> Less(k, es[j].key))
            && (r.Found? ==> es[r.index].key == k)
  {
    hide Less, Weight, Search;
    var r := Search(Keys(es), k);
    forall j | 0 <= j < |es| ensures es[j].key == Keys(es)[j] {
    }
  }

  method LeafRange(es: seq<Entry>, start: End, end: End, out: seq<Entry>) returns (r: seq<Entry>)
    requires Sorted(es)
    ensures r == out + Select(es, Range(start, end))
  {
    hide Less, Weight, Select, StartIndex;
    ghost var q := Range(start, end);
    r := out;
    var i := StartIndex(es, start);
    var j := i;
    SelectNone(es[..i], q);
    while j < |es|
      invariant i <= j <= |es|
      invariant r == out + Select(es[..j], q)
    {
      SelectSnoc(es, j, q);
      if BeforeEnd(end, es[j].key) {
        r := r + [es[j]];
      } else {
        break;
      }
      j := j + 1;
    }
    assert forall n :: j <= n < |es| ==> !BeforeEnd(end, es[n].key);
    SelectNone(es[j..], q);
    SelectConcat(es[..j], es[j..], q);
    assert es == es[..j] + es[j..];
  }

  /** A child whose lower separator is past the end cannot meet the range. */
  predicate PastEnd(end: End, lower: Key) {
    match end
    case Unbounded => false
    case Included(e) => Less(e, lower)
    case Excluded(e) => !Less(lower, e)
  }

  /** A child whose upper separator is not after the start cannot meet the range. */
  predicate BeforeStart(start: End, upper: Key) {
    match start
    case Unbounded => false
    case Included(s) => !Less(s, upper)
    case Excluded(s) => !Less(s, upper)
  }

  lemma RangeSkip(es: seq<Entry>, lo: Option<Key>, hi: Option<Key>, start: End, end: End)
    requires forall e :: e in es ==> InBounds(e.key, lo, hi)
    requires (lo.Some? && PastEnd(end, lo.value)) || (hi.Some? && BeforeStart(start, hi.value))
    ensures Select(es, Range(start, end)) == []
  {
    hide Less, Weight, Select;
    SelectNone(es, Range(start, end));
  }

  /** The range scan of a subtree selects exactly the entries between the ends, in order. */
  method CollectRange(node: Page, start: End, end: End, out: seq<Entry>,
                      ghost lo: Option<Key>, ghost hi: Option<Key>, ghost depth: nat, ghost max: nat)
    returns (r: seq<Entry>)
    requires Wf(node, lo, hi, depth, max)
    ensures r == out + Select(Flatten(node), Range(start, end))
    decreases node
  {
    hide Less, Weight, Select;
    r := out;
    match node
    case Leaf(es) => r := LeafRange(es, start, end, r);
    case Branch(keys, children) =>
      ghost var q := Range(start, end);
      SelectNone([], q);
      for i := 0 to |children|
        invariant r == out + Select(FlattenAll(children[..i]), q)
      {
        ghost var l, h := LowerAt(keys, lo, i), UpperAt(keys, hi, i);
        FlattenSorted(children[i], l, h, depth - 1, max);
        SelectPage(children, i, q);
        if i > 0 && PastEnd(end, keys[i - 1]) {
          RangeSkip(Flatten(children[i]), l, h, start, end);
        } else if i < |keys| && BeforeStart(start, keys[i]) {
          RangeSkip(Flatten(children[i]), l, h, start, end);
        } else {
          r := CollectRange(children[i], start, end, r, l, h, depth - 1, max);
        }
      }
      assert children[..|children|] == children;
  }

  /** A range whose end lies before its start selects nothing. */
  lemma InvertedRange(es: seq<Entry>, start: End, end: End)
    requires !start.Unbounded? && !end.Unbounded? && Less(end.key, start.key)
    ensures Select(es, Range(start, end)) == []
  {
    hide Less, Weight, Select;
    SelectNone(es, Range(start, end));
  }
}
