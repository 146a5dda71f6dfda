/**
 * The copy-on-write B+tree of the storage engine: pages, lookup, insertion with leaf and
 * branch splits, removal without merging. Specification: a sorted association list.
 */
module BTree {
  import opened Bytes
  import opened SortedEntries

  /** Child references to disk are always the in-memory placeholder, so they carry nothing. */
  datatype Page =
    | Leaf(entries: seq<Entry>)
    | Branch(keys: seq<Key>, children: seq<Page>)

  /** Result of a binary search: the index of the key, or where it would be inserted. */
  datatype SearchResult = Found(index: nat) | Missing(index: nat)

  /** A page after insertion: one page, or two pages and the key that separates them. */
  datatype Inserted = Whole(page: Page) | Split(left: Page, pivot: Key, right: Page)

  /** A page after removal, with the value removed. */
  datatype Removed = Removed(page: Page, taken: Option<Value>)

  // ---------------------------------------------------------------- searching in a page

  ghost predicate SortedKeys(keys: seq<Key>) {
    forall i, j :: 0 <= i < j < |keys| ==> Less(keys[i], keys[j])
  }

  function Keys(es: seq<Entry>): (keys: seq<Key>)
    ensures |keys| == |es|
    ensures forall i :: 0 <= i < |es| ==> keys[i] == es[i].key
  {
    seq(|es|, i requires 0 <= i < |es| => es[i].key)
  }

  /** How many leading keys precede k. */
  function Position(keys: seq<Key>, k: Key): (p: nat)
    ensures p <= |keys|
    ensures forall i :: 0 <= i < p ==> Less(keys[i], k)
    ensures p < |keys| ==> !Less(keys[p], k)
  {
    if keys == [] || !Less(keys[0], k) then 0 else 1 + Position(keys[1..], k)
  }

  /** What the standard binary search promises of a strictly sorted slice. */
  function Search(keys: seq<Key>, k: Key): (r: SearchResult)
    requires SortedKeys(keys)
    ensures r.Found? ==> r.index < |keys| && keys[r.index] == k
    ensures r.Missing? ==> r.index <= |keys|
    ensures forall i :: 0 <= i < r.index ==> Less(keys[i], k)
    ensures forall i :: r.index <= i < |keys| && (r.Missing? || i > r.index) ==> Less(k, keys[i])
  {
    var p := Position(keys, k);
    if p < |keys| then Trichotomy(keys[p], k); if keys[p] == k then Found(p) else Missing(p)
    else Missing(p)
  }

  /** Which child of a branch covers k: keys equal to a separator lie to its right. */
  function ChildIndex(keys: seq<Key>, k: Key): (i: nat)
    requires SortedKeys(keys)
    ensures i <= |keys|
    ensures forall j :: 0 <= j < i ==> !Less(k, keys[j])
    ensures forall j :: i <= j < |keys| ==> Less(k, keys[j])
  {
    match Search(keys, k)
    case Found(i) => i + 1
    case Missing(i) => i
  }

  // ---------------------------------------------------------------- contents and invariant

  /** The entries of a page in scan order. */
  function Flatten(p: Page): (es: seq<Entry>)
    decreases p
  {
    match p
    case Leaf(es) => es
    case Branch(_, children) => FlattenAll(children)
  }

  function FlattenAll(ps: seq<Page>): (es: seq<Entry>)
    decreases ps
  {
    if ps == [] then [] else Flatten(ps[0]) + FlattenAll(ps[1..])
  }

  ghost predicate InBounds(k: Key, lo: Option<Key>, hi: Option<Key>) {
    && (lo.Some? ==> !Less(k, lo.value))
    && (hi.Some? ==> Less(k, hi.value))
  }

  ghost function LowerAt(keys: seq<Key>, lo: Option<Key>, i: nat): Option<Key>
    requires i <= |keys|
  {
    if i == 0 then lo else Some(keys[i - 1])
  }

  ghost function UpperAt(keys: seq<Key>, hi: Option<Key>, i: nat): Option<Key>
    requires i <= |keys|
  {
    if i == |keys| then hi else Some(keys[i])
  }

  /**
   * Well-formedness of a subtree whose keys lie in [lo, hi) and whose leaves are `depth`
   * levels down. Separators need not be stored keys and leaves may be empty.
   */
  ghost predicate Wf(p: Page, lo: Option<Key>, hi: Option<Key>, depth: nat, max: nat)
    decreases p
  {
    match p
    case Leaf(es) =>
      depth == 0 && |es| <= max && Sorted(es) && forall e :: e in es ==> InBounds(e.key, lo, hi)
    case Branch(keys, children) =>
      && depth > 0 && |keys| <= max && |children| == |keys| + 1 && SortedKeys(keys)
      && (forall i :: 0 <= i < |keys| ==> InBounds(keys[i], lo, hi))
      && (forall i :: 0 <= i < |children| ==>
            Wf(children[i], LowerAt(keys, lo, i), UpperAt(keys, hi, i), depth - 1, max))
  }

  /** The branch part of `Wf` without its size limit: holds while a split is pending. */
  ghost predicate ChildrenOk(keys: seq<Key>, children: seq<Page>,
                             lo: Option<Key>, hi: Option<Key>, depth: nat, max: nat)
  {
    && |children| == |keys| + 1 && SortedKeys(keys)
    && (forall i :: 0 <= i < |keys| ==> InBounds(keys[i], lo, hi))
    && (forall i :: 0 <= i < |children| ==>
          Wf(children[i], LowerAt(keys, lo, i), UpperAt(keys, hi, i), depth, max))
  }

  ghost predicate WellFormed(p: Page, max: nat) {
    exists lo, hi, depth: nat :: Wf(p, lo, hi, depth, max)
  }

  lemma ChildWellFormed(p: Page, i: nat, max: nat)
    requires WellFormed(p, max) && p.Branch? && i < |p.children|
    ensures WellFormed(p.children[i], max)
  {
    var lo, hi, depth: nat :| Wf(p, lo, hi, depth, max);
    assert Wf(p.children[i], LowerAt(p.keys, lo, i), UpperAt(p.keys, hi, i), depth - 1, max);
  }

  // ---------------------------------------------------------------- operations on pages

  function LeafPut(es: seq<Entry>, k: Key, v: Value): (r: seq<Entry>)
    requires Sorted(es)
  {
    match Search(Keys(es), k)
    case Found(i) => es[i := Entry(k, v)]
    case Missing(i) => es[..i] + [Entry(k, v)] + es[i..]
  }

  function Insert(p: Page, k: Key, v: Value, max: nat): (r: Inserted)
    requires WellFormed(p, max)
    decreases p
  {
    match p
    case Leaf(es) => SplitLeaf(LeafPut(es, k, v), max)
    case Branch(keys, children) =>
      var i := ChildIndex(keys, k);
      ChildWellFormed(p, i, max);
      BranchAfter(keys, children, i, Insert(children[i], k, v, max), max)
  }

  /** A branch after child i was replaced by the result of inserting into it. */
  function BranchAfter(keys: seq<Key>, children: seq<Page>, i: nat, r: Inserted, max: nat): Inserted
    requires |children| == |keys| + 1 && i < |children|
  {
    match r
    case Whole(child) => Whole(Branch(keys, children[i := child]))
    case Split(l, pivot, q) =>
      SplitBranch(InsertAt(keys, i, pivot), InsertAt(children[i := l], i + 1, q), max)
  }

  function Remove(p: Page, k: Key, max: nat): (r: Removed)
    requires WellFormed(p, max)
    decreases p
  {
    match p
    case Leaf(es) => LeafRemove(es, k)
    case Branch(keys, children) =>
      var i := ChildIndex(keys, k);
      ChildWellFormed(p, i, max);
      var r := Remove(children[i], k, max);
      if r.taken.Some? then Removed(Branch(keys, children[i := r.page]), r.taken) else Removed(p, None)
  }

  function LeafRemove(es: seq<Entry>, k: Key): (r: Removed)
    requires Sorted(es)
  {
    match Search(Keys(es), k)
    case Found(i) => Removed(Leaf(es[..i] + es[i + 1..]), Some(es[i].value))
    case Missing(_) => Removed(Leaf(es), None)
  }

  function SplitLeaf(es: seq<Entry>, max: nat): (r: Inserted) {
    if |es| <= max then Whole(Leaf(es)) else
      var mid := |es| / 2;
      Split(Leaf(es[..mid]), es[mid].key, Leaf(es[mid..]))
  }

  function SplitBranch(keys: seq<Key>, children: seq<Page>, max: nat): (r: Inserted)
    requires |children| == |keys| + 1
  {
    if |keys| <= max then Whole(Branch(keys, children)) else
      var mid := |keys| / 2;
      Split(Branch(keys[..mid], children[..mid + 1]), keys[mid],
            Branch(keys[mid + 1..], children[mid + 1..]))
  }

  /** A page that splits gives two of nearly the same size, one entry or key more than a page may hold between them. */
  lemma SplitsEvenly(p: Page, k: Key, v: Value, max: nat)
    requires WellFormed(p, max) && max > 0 && Insert(p, k, v, max).Split?
    ensures var r := Insert(p, k, v, max);
            if p.Leaf? then
              && r.left.Leaf? && r.right.Leaf? && |r.left.entries| + |r.right.entries| == max + 1
              && |r.left.entries| <= |r.right.entries| <= |r.left.entries| + 1
            else
              && r.left.Branch? && r.right.Branch? && |r.left.keys| + |r.right.keys| == max
              && |r.right.keys| <= |r.left.keys| <= |r.right.keys| + 1
  {
    hide Sorted, InBounds, SortedKeys, Search, ChildIndex;
    PageFits(p, max);
    match p
    case Leaf(es) =>
      assert |LeafPut(es, k, v)| <= |es| + 1;
    case Branch(keys, children) =>
      var i := ChildIndex(keys, k);
      ChildWellFormed(p, i, max);
      assert Insert(p, k, v, max) == BranchAfter(keys, children, i, Insert(children[i], k, v, max), max);
  }

  lemma PageFits(p: Page, max: nat)
    requires WellFormed(p, max)
    ensures if p.Leaf? then |p.entries| <= max else |p.keys| <= max
  {
  }

  function InsertAt<T>(s: seq<T>, i: nat, x: T): (r: seq<T>)
    requires i <= |s|
    ensures |r| == |s| + 1 && r[i] == x
    ensures forall j :: 0 <= j < i ==> r[j] == s[j]
    ensures forall j :: i < j < |r| ==> r[j] == s[j - 1]
  {
    s[..i] + [x] + s[i..]
  }

  // ---------------------------------------------------------------- flattening

  lemma FirstPage(ps: seq<Page>)
    requires ps != []
    ensures FlattenAll(ps) == Flatten(ps[0]) + FlattenAll(ps[1..])
  {
    hide Flatten;
  }

  lemma NoPages()
    ensures FlattenAll([]) == []
  {
  }

  lemma FlattenGroup(a: seq<Entry>, b: seq<Entry>, c: seq<Entry>)
    ensures a + (b + c) == (a + b) + c
  {
  }

  lemma {:induction false} FlattenConcat(a: seq<Page>, b: seq<Page>)
    ensures FlattenAll(a + b) == FlattenAll(a) + FlattenAll(b)
  {
    hide Flatten, FlattenAll;
    NoPages();
    if a == [] {
      assert a + b == b;
    } else {
      FlattenConcat(a[1..], b);
      var ab := a + b;
      assert ab[0] == a[0] && ab[1..] == a[1..] + b;
      FirstPage(ab);
      FirstPage(a);
      FlattenGroup(Flatten(a[0]), FlattenAll(a[1..]), FlattenAll(b));
    }
  }

  /** The contents of a list of pages, cut at page i. */
  lemma FlattenCut(ps: seq<Page>, i: nat)
    requires i < |ps|
    ensures FlattenAll(ps) == FlattenAll(ps[..i]) + Flatten(ps[i]) + FlattenAll(ps[i + 1..])
  {
    assert ps == ps[..i] + ps[i..];
    FlattenConcat(ps[..i], ps[i..]);
    assert ps[i..][1..] == ps[i + 1..];
  }

  /** All keys of a well-formed page lie in its bounds, in strictly increasing order. */
  lemma {:induction false} FlattenSorted(p: Page, lo: Option<Key>, hi: Option<Key>, depth: nat, max: nat)
    requires Wf(p, lo, hi, depth, max)
    ensures Sorted(Flatten(p))
    ensures forall e :: e in Flatten(p) ==> InBounds(e.key, lo, hi)
    decreases p, 0
  {
    hide Less, Weight;
    if p.Branch? {
      ChildrenSorted(p.keys, p.children, lo, hi, depth - 1, max, 0);
      assert p.children[0..] == p.children;
      forall e | e in Flatten(p) ensures InBounds(e.key, lo, hi) {
        assert InBounds(e.key, LowerAt(p.keys, lo, 0), hi);
      }
    }
  }

  /** The children from index i on hold sorted keys within [separator i-1, hi). */
  lemma {:induction false} ChildrenSorted(keys: seq<Key>, children: seq<Page>,
                                          lo: Option<Key>, hi: Option<Key>, depth: nat, max: nat, i: nat)
    requires ChildrenOk(keys, children, lo, hi, depth, max)
    requires i < |children|
    ensures Sorted(FlattenAll(children[i..]))
    ensures forall e :: e in FlattenAll(children[i..]) ==> InBounds(e.key, LowerAt(keys, lo, i), hi)
    decreases children, |children| - i
  {
    hide Less, Weight;
    FlattenSorted(children[i], LowerAt(keys, lo, i), UpperAt(keys, hi, i), depth, max);
    assert children[i..][1..] == children[i + 1..];
    if i + 1 < |children| {
      ChildrenSorted(keys, children, lo, hi, depth, max, i + 1);
      assert FlattenAll(children[i..]) == Flatten(children[i]) + FlattenAll(children[i + 1..]);
      assert InBounds(keys[i], lo, hi);
      SortedJoin(Flatten(children[i]), FlattenAll(children[i + 1..]), keys[i]);
    } else {
      assert FlattenAll(children[i..]) == Flatten(children[i]);
    }
  }

  /** Two sorted lists on either side of a key join to a sorted list. */
  lemma SortedJoin(a: seq<Entry>, b: seq<Entry>, k: Key)
    requires Sorted(a) && Sorted(b)
    requires Below(a, k) && forall e :: e in b ==> !Less(e.key, k)
    ensures Sorted(a + b)
  {
    hide Less, Weight;
    forall i, j | 0 <= i < j < |a + b|
      ensures Less((a + b)[i].key, (a + b)[j].key)
    {
      if i < |a| <= j {
        assert (a + b)[i] in a && (a + b)[j] in b;
      }
    }
  }

  /** The children before index i hold only keys below separator i-1. */
  lemma {:induction false} ChildrenBelow(keys: seq<Key>, children: seq<Page>,
                                         lo: Option<Key>, hi: Option<Key>, depth: nat, max: nat, i: nat)
    requires ChildrenOk(keys, children, lo, hi, depth, max)
    requires 0 < i < |children|
    ensures Below(FlattenAll(children[..i]), keys[i - 1])
  {
    hide Less, Weight;
    var last := children[i - 1];
    FlattenSorted(last, LowerAt(keys, lo, i - 1), UpperAt(keys, hi, i - 1), depth, max);
    assert children[..i] == children[..i - 1] + [last];
    FlattenConcat(children[..i - 1], [last]);
    assert FlattenAll([last]) == Flatten(last);
    if i > 1 {
      ChildrenBelow(keys, children, lo, hi, depth, max, i - 1);
      assert Less(keys[i - 2], keys[i - 1]);
    }
  }

  /** The contents around the child that covers k: everything before it is smaller, after it larger. */
  lemma CutAtChild(keys: seq<Key>, children: seq<Page>,
                   lo: Option<Key>, hi: Option<Key>, depth: nat, max: nat, k: Key)
    requires ChildrenOk(keys, children, lo, hi, depth, max)
    ensures var i := ChildIndex(keys, k);
            && FlattenAll(children) == FlattenAll(children[..i]) + Flatten(children[i]) + FlattenAll(children[i + 1..])
            && Below(FlattenAll(children[..i]), k)
            && Above(k, FlattenAll(children[i + 1..]))
  {
    hide Less, Weight;
    var i := ChildIndex(keys, k);
    FlattenCut(children, i);
    if i > 0 {
      ChildrenBelow(keys, children, lo, hi, depth, max, i);
    }
    if i < |keys| {
      ChildrenSorted(keys, children, lo, hi, depth, max, i + 1);
    }
  }

  // ---------------------------------------------------------------- insertion

  /** Inserting into a leaf is putting into its list. */
  lemma LeafPutIsPut(es: seq<Entry>, k: Key, v: Value)
    requires Sorted(es)
    ensures LeafPut(es, k, v) == Put(es, k, v)
  {
    hide Less, Weight, Search, Put;
    var i := Search(Keys(es), k).index;
    assert forall j :: 0 <= j < i ==> Less(Keys(es)[j], k);
    assert i < |es| ==> es[i].key == Keys(es)[i];
    PutAtIndex(es, i, k, v);
  }

  /** Putting at a known index. */
  lemma PutAtIndex(es: seq<Entry>, i: nat, k: Key, v: Value)
    requires i <= |es| && Below(es[..i], k)
    requires i < |es| ==> es[i].key == k || Less(k, es[i].key)
    ensures i < |es| && es[i].key == k ==> Put(es, k, v) == es[i := Entry(k, v)]
    ensures !(i < |es| && es[i].key == k) ==> Put(es, k, v) == es[..i] + [Entry(k, v)] + es[i..]
  {
    hide Less, Weight, Put;
    PutHead(es[i..], k, v);
    PutPrefix(es[..i], es[i..], k, v);
    assert es == es[..i] + es[i..];
  }

  /** Putting a key at or before the head of a list. */
  lemma PutHead(es: seq<Entry>, k: Key, v: Value)
    requires es != [] ==> es[0].key == k || Less(k, es[0].key)
    ensures Put(es, k, v) == [Entry(k, v)] + if es != [] && es[0].key == k then es[1..] else es
  {
  }

  /** What an insertion promises of its result, for a subtree with the given bounds. */
  ghost predicate InsertOk(r: Inserted, es: seq<Entry>,
                           lo: Option<Key>, hi: Option<Key>, depth: nat, max: nat)
  {
    match r
    case Whole(p) => Wf(p, lo, hi, depth, max) && Flatten(p) == es
    case Split(l, pivot, q) =>
      && Wf(l, lo, Some(pivot), depth, max) && Wf(q, Some(pivot), hi, depth, max)
      && InBounds(pivot, lo, hi) && (lo.Some? ==> Less(lo.value, pivot))
      && Flatten(l) + Flatten(q) == es
  }

  lemma SplitLeafOk(es: seq<Entry>, lo: Option<Key>, hi: Option<Key>, max: nat)
    requires max >= 1 && |es| <= max + 1 && Sorted(es)
    requires forall e :: e in es ==> InBounds(e.key, lo, hi)
    ensures InsertOk(SplitLeaf(es, max), es, lo, hi, 0, max)
  {
    hide Less, Weight, InsertOk;
    if |es| > max {
      var mid := |es| / 2;
      assert es[..mid] + es[mid..] == es;
      LeafHalvesOk(es[..mid], es[mid..], lo, hi, max);
    } else {
      LeafWhole(es, lo, hi, max);
    }
  }

  lemma LeafWhole(es: seq<Entry>, lo: Option<Key>, hi: Option<Key>, max: nat)
    requires Wf(Leaf(es), lo, hi, 0, max)
    ensures InsertOk(Whole(Leaf(es)), es, lo, hi, 0, max)
  {
  }

  lemma LeafHalvesOk(a: seq<Entry>, b: seq<Entry>, lo: Option<Key>, hi: Option<Key>, max: nat)
    requires 0 < |a| <= max && 0 < |b| <= max && Sorted(a + b)
    requires forall e :: e in a + b ==> InBounds(e.key, lo, hi)
    ensures InsertOk(Split(Leaf(a), b[0].key, Leaf(b)), a + b, lo, hi, 0, max)
  {
    hide Less, Weight;
    var es := a + b;
    forall i, j | 0 <= i < j < |a| ensures Less(a[i].key, a[j].key) {
      assert es[i] == a[i] && es[j] == a[j];
    }
    forall i, j | 0 <= i < j < |b| ensures Less(b[i].key, b[j].key) {
      assert es[|a| + i] == b[i] && es[|a| + j] == b[j];
    }
    forall i | 0 <= i < |a| ensures Less(a[i].key, b[0].key) {
      assert es[i] == a[i] && es[|a|] == b[0];
    }
    assert a[0] in es && b[0] in es;
  }

  lemma SplitBranchOk(keys: seq<Key>, children: seq<Page>,
                      lo: Option<Key>, hi: Option<Key>, depth: nat, max: nat)
    requires max >= 1 && |keys| <= max + 1
    requires ChildrenOk(keys, children, lo, hi, depth, max)
    ensures InsertOk(SplitBranch(keys, children, max), FlattenAll(children), lo, hi, depth + 1, max)
  {
    hide Less, Weight, FlattenAll, InsertOk;
    if |keys| > max {
      var mid := |keys| / 2;
      assert children[..mid + 1] + children[mid + 1..] == children;
      FlattenConcat(children[..mid + 1], children[mid + 1..]);
      LeftHalfOk(keys, children, mid, lo, hi, depth, max);
      RightHalfOk(keys, children, mid, lo, hi, depth, max);
      assert Less(keys[0], keys[mid]);
      BranchHalves(Branch(keys[..mid], children[..mid + 1]), keys[mid],
                   Branch(keys[mid + 1..], children[mid + 1..]), lo, hi, depth + 1, max);
    } else {
      BranchWhole(keys, children, lo, hi, depth, max);
    }
  }

  lemma BranchHalves(l: Page, pivot: Key, r: Page, lo: Option<Key>, hi: Option<Key>, depth: nat, max: nat)
    requires Wf(l, lo, Some(pivot), depth, max) && Wf(r, Some(pivot), hi, depth, max)
    requires InBounds(pivot, lo, hi) && (lo.Some? ==> Less(lo.value, pivot))
    ensures InsertOk(Split(l, pivot, r), Flatten(l) + Flatten(r), lo, hi, depth, max)
  {
  }

  lemma LeftHalfOk(keys: seq<Key>, children: seq<Page>, mid: nat,
                   lo: Option<Key>, hi: Option<Key>, depth: nat, max: nat)
    requires ChildrenOk(keys, children, lo, hi, depth, max) && mid < |keys|
    ensures ChildrenOk(keys[..mid], children[..mid + 1], lo, Some(keys[mid]), depth, max)
  {
    hide Less, Weight;
    var lk := keys[..mid];
    forall i | 0 <= i <= mid
      ensures Wf(children[..mid + 1][i], LowerAt(lk, lo, i), UpperAt(lk, Some(keys[mid]), i), depth, max)
    {
      assert LowerAt(lk, lo, i) == LowerAt(keys, lo, i);
      assert UpperAt(lk, Some(keys[mid]), i) == UpperAt(keys, hi, i);
    }
  }

  lemma RightHalfOk(keys: seq<Key>, children: seq<Page>, mid: nat,
                    lo: Option<Key>, hi: Option<Key>, depth: nat, max: nat)
    requires ChildrenOk(keys, children, lo, hi, depth, max) && mid < |keys|
    ensures ChildrenOk(keys[mid + 1..], children[mid + 1..], Some(keys[mid]), hi, depth, max)
  {
    hide Less, Weight;
    var rk, rc := keys[mid + 1..], children[mid + 1..];
    forall i | 0 <= i < |rc|
      ensures Wf(rc[i], LowerAt(rk, Some(keys[mid]), i), UpperAt(rk, hi, i), depth, max)
    {
      assert rc[i] == children[mid + 1 + i];
      assert LowerAt(rk, Some(keys[mid]), i) == LowerAt(keys, lo, mid + 1 + i);
      assert UpperAt(rk, hi, i) == UpperAt(keys, hi, mid + 1 + i);
    }
  }

  /** Replacing child i by a page with the same bounds keeps the branch well-formed. */
  lemma ReplaceChildOk(keys: seq<Key>, children: seq<Page>, i: nat, child: Page,
                       lo: Option<Key>, hi: Option<Key>, depth: nat, max: nat)
    requires ChildrenOk(keys, children, lo, hi, depth, max) && i < |children|
    requires Wf(child, LowerAt(keys, lo, i), UpperAt(keys, hi, i), depth, max)
    ensures ChildrenOk(keys, children[i := child], lo, hi, depth, max)
    ensures FlattenAll(children[i := child])
         == FlattenAll(children[..i]) + Flatten(child) + FlattenAll(children[i + 1..])
  {
    hide Less, Weight;
    var c := children[i := child];
    FlattenCut(c, i);
    assert c[..i] == children[..i] && c[i + 1..] == children[i + 1..];
  }

  /** Replacing child i by two pages around a pivot keeps the branch well-formed but for its size. */
  lemma SplitChildOk(keys: seq<Key>, children: seq<Page>, i: nat, l: Page, pivot: Key, r: Page,
                     lo: Option<Key>, hi: Option<Key>, depth: nat, max: nat)
    requires ChildrenOk(keys, children, lo, hi, depth, max) && i < |children|
    requires InsertOk(Split(l, pivot, r), Flatten(l) + Flatten(r),
                      LowerAt(keys, lo, i), UpperAt(keys, hi, i), depth, max)
    ensures ChildrenOk(InsertAt(keys, i, pivot), InsertAt(children[i := l], i + 1, r), lo, hi, depth, max)
    ensures FlattenAll(InsertAt(children[i := l], i + 1, r))
         == FlattenAll(children[..i]) + (Flatten(l) + Flatten(r)) + FlattenAll(children[i + 1..])
  {
    hide Less, Weight;
    var ks, cs := InsertAt(keys, i, pivot), InsertAt(children[i := l], i + 1, r);
    SplitChildBounds(keys, i, pivot, lo, hi);
    SplitChildContents(children, i, l, r);
    forall j | 0 <= j < |cs|
      ensures Wf(cs[j], LowerAt(ks, lo, j), UpperAt(ks, hi, j), depth, max)
    {
      assert cs[j] == if j < i then children[j] else if j == i then l else if j == i + 1 then r else children[j - 1];
    }
  }

  lemma SplitChildContents(children: seq<Page>, i: nat, l: Page, r: Page)
    requires i < |children|
    ensures FlattenAll(InsertAt(children[i := l], i + 1, r))
         == FlattenAll(children[..i]) + (Flatten(l) + Flatten(r)) + FlattenAll(children[i + 1..])
  {
    hide Flatten, FlattenAll;
    var a, c := children[..i], children[i + 1..];
    assert InsertAt(children[i := l], i + 1, r) == a + ([l, r] + c);
    FlattenConcat(a, [l, r] + c);
    FlattenConcat([l, r], c);
    FlattenTwo(l, r);
  }

  lemma FlattenTwo(l: Page, r: Page)
    ensures FlattenAll([l, r]) == Flatten(l) + Flatten(r)
  {
    hide Flatten;
    assert [l, r][1..] == [r] && [r][1..] == [];
    assert FlattenAll([r]) == Flatten(r) + FlattenAll([]);
  }

  /** The bounds of every child after inserting a separator at i. */
  lemma SplitChildBounds(keys: seq<Key>, i: nat, pivot: Key, lo: Option<Key>, hi: Option<Key>)
    requires SortedKeys(keys) && i <= |keys|
    requires forall j :: 0 <= j < |keys| ==> InBounds(keys[j], lo, hi)
    requires InBounds(pivot, LowerAt(keys, lo, i), UpperAt(keys, hi, i))
    requires LowerAt(keys, lo, i).Some? ==> Less(LowerAt(keys, lo, i).value, pivot)
    ensures var ks := InsertAt(keys, i, pivot);
            && SortedKeys(ks)
            && (forall j :: 0 <= j < |ks| ==> InBounds(ks[j], lo, hi))
            && (forall j :: 0 <= j < i ==> LowerAt(ks, lo, j) == LowerAt(keys, lo, j) && UpperAt(ks, hi, j) == UpperAt(keys, hi, j))
            && LowerAt(ks, lo, i) == LowerAt(keys, lo, i) && UpperAt(ks, hi, i) == Some(pivot)
            && LowerAt(ks, lo, i + 1) == Some(pivot) && UpperAt(ks, hi, i + 1) == UpperAt(keys, hi, i)
            && (forall j :: i + 1 < j <= |ks| ==> LowerAt(ks, lo, j) == LowerAt(keys, lo, j - 1) && UpperAt(ks, hi, j) == UpperAt(keys, hi, j - 1))
  {
    hide Less, Weight;
    if i > 0 {
      assert InBounds(keys[i - 1], lo, hi);
    }
    if i < |keys| {
      assert InBounds(keys[i], lo, hi);
    }
  }

  /** Insertion keeps the tree well-formed and puts k into its contents. */
  lemma {:induction false} InsertCorrect(p: Page, k: Key, v: Value,
                                         lo: Option<Key>, hi: Option<Key>, depth: nat, max: nat)
    requires max >= 1 && Wf(p, lo, hi, depth, max) && InBounds(k, lo, hi)
    ensures InsertOk(Insert(p, k, v, max), Put(Flatten(p), k, v), lo, hi, depth, max)
    decreases p
  {
    hide Less, Weight, Put, InsertOk, FlattenAll, ChildIndex;
    match p
    case Leaf(es) =>
      LeafPutIsPut(es, k, v);
      PutSorted(es, k, v);
      PutSize(es, k, v);
      SplitLeafOk(Put(es, k, v), lo, hi, max);
    case Branch(keys, children) =>
      var i := ChildIndex(keys, k);
      InsertCorrect(children[i], k, v, LowerAt(keys, lo, i), UpperAt(keys, hi, i), depth - 1, max);
      InsertAbove(keys, children, k, v, Insert(children[i], k, v, max), lo, hi, depth - 1, max);
  }

  /** The branch step of an insertion, given what the child's insertion promises. */
  lemma InsertAbove(keys: seq<Key>, children: seq<Page>, k: Key, v: Value, r: Inserted,
                    lo: Option<Key>, hi: Option<Key>, depth: nat, max: nat)
    requires max >= 1 && |keys| <= max && ChildrenOk(keys, children, lo, hi, depth, max)
    requires var i := ChildIndex(keys, k);
             InsertOk(r, Put(Flatten(children[i]), k, v), LowerAt(keys, lo, i), UpperAt(keys, hi, i), depth, max)
    ensures InsertOk(BranchAfter(keys, children, ChildIndex(keys, k), r, max),
                     Put(FlattenAll(children), k, v), lo, hi, depth + 1, max)
  {
    hide Less, Weight, Put, FlattenAll, Flatten, ChildIndex, SplitBranch;
    var i := ChildIndex(keys, k);
    CutAtChild(keys, children, lo, hi, depth, max, k);
    OnMiddle(FlattenAll(children[..i]), Flatten(children[i]), FlattenAll(children[i + 1..]), k, v);
    match r
    case Whole(child) =>
      ReplaceChildOk(keys, children, i, child, lo, hi, depth, max);
      BranchWhole(keys, children[i := child], lo, hi, depth, max);
    case Split(l, pivot, q) =>
      SplitChildOk(keys, children, i, l, pivot, q, lo, hi, depth, max);
      SplitBranchOk(InsertAt(keys, i, pivot), InsertAt(children[i := l], i + 1, q), lo, hi, depth, max);
  }

  lemma BranchWhole(keys: seq<Key>, children: seq<Page>,
                    lo: Option<Key>, hi: Option<Key>, depth: nat, max: nat)
    requires |keys| <= max && ChildrenOk(keys, children, lo, hi, depth, max)
    ensures InsertOk(Whole(Branch(keys, children)), FlattenAll(children), lo, hi, depth + 1, max)
  {
    hide Less, Weight;
  }

  lemma {:induction false} PutSize(es: seq<Entry>, k: Key, v: Value)
    ensures |es| <= |Put(es, k, v)| <= |es| + 1
  {
    hide Less, Weight;
    if es != [] {
      PutSize(es[1..], k, v);
    }
  }

  // ---------------------------------------------------------------- removal

  /** A lookup, a removal and a known index agree. */
  lemma AtIndex(es: seq<Entry>, i: nat, k: Key)
    requires i <= |es| && Below(es[..i], k)
    requires if i < |es| && es[i].key == k then Above(k, es[i + 1..]) else Above(k, es[i..])
    ensures if i < |es| && es[i].key == k
            then Lookup(es, k) == Some(es[i].value) && Delete(es, k) == es[..i] + es[i + 1..]
            else Lookup(es, k) == None && Delete(es, k) == es
  {
    hide Less, Weight, Put;
    if i < |es| && es[i].key == k {
      assert es == es[..i] + es[i..] && es[i..][1..] == es[i + 1..];
      DeletePrefix(es[..i], es[i..], k);
      LookupPrefix(es[..i], es[i..], k);
    } else {
      assert es == es[..i] + es[i..];
      DeletePrefix(es[..i], es[i..], k);
      LookupPrefix(es[..i], es[i..], k);
      DeleteSuffix([], es[i..], k);
      LookupSuffix([], es[i..], k);
      assert [] + es[i..] == es[i..];
    }
  }

  lemma LeafRemoveCorrect(es: seq<Entry>, k: Key)
    requires Sorted(es)
    ensures LeafRemove(es, k) == Removed(Leaf(Delete(es, k)), Lookup(es, k))
  {
    hide Less, Weight, Search, Delete, Lookup;
    var r := Search(Keys(es), k);
    var i := r.index;
    assert forall j :: 0 <= j < i ==> Less(Keys(es)[j], k);
    var from := if r.Found? then i + 1 else i;
    assert forall j :: from <= j < |es| ==> Less(k, Keys(es)[j]);
    assert Above(k, es[from..]) by {
      assert forall j :: from <= j < |es| ==> Less(k, es[j].key);
    }
    assert i < |es| ==> es[i].key == Keys(es)[i];
    AtIndex(es, i, k);
  }

  /** Removal keeps the tree well-formed, removes k from its contents and returns k's value. */
  lemma {:induction false} RemoveCorrect(p: Page, k: Key, lo: Option<Key>, hi: Option<Key>, depth: nat, max: nat)
    requires Wf(p, lo, hi, depth, max)
    ensures var r := Remove(p, k, max);
            && Wf(r.page, lo, hi, depth, max)
            && Flatten(r.page) == Delete(Flatten(p), k)
            && r.taken == Lookup(Flatten(p), k)
    decreases p
  {
    hide Less, Weight, Delete, Lookup, FlattenAll, ChildIndex, LowerAt, UpperAt, InBounds;
    match p
    case Leaf(es) =>
      LeafRemoval(es, k, lo, hi, max);
    case Branch(keys, children) =>
      var i := ChildIndex(keys, k);
      var r := Remove(children[i], k, max);
      CutAtChild(keys, children, lo, hi, depth - 1, max, k);
      OnMiddle(FlattenAll(children[..i]), Flatten(children[i]), FlattenAll(children[i + 1..]), k, []);
      RemoveCorrect(children[i], k, LowerAt(keys, lo, i), UpperAt(keys, hi, i), depth - 1, max);
      DeleteMissing(Flatten(children[i]), k);
      ReplaceChildOk(keys, children, i, r.page, lo, hi, depth - 1, max);
  }

  lemma LeafRemoval(es: seq<Entry>, k: Key, lo: Option<Key>, hi: Option<Key>, max: nat)
    requires Wf(Leaf(es), lo, hi, 0, max)
    ensures LeafRemove(es, k) == Removed(Leaf(Delete(es, k)), Lookup(es, k))
    ensures Wf(Leaf(Delete(es, k)), lo, hi, 0, max)
  {
    hide Less, Weight, Delete, Lookup, LeafRemove, InBounds;
    LeafRemoveCorrect(es, k);
    DeleteSize(es, k);
    DeleteIsMapRemove(es, k);
  }

  lemma {:induction false} DeleteSize(es: seq<Entry>, k: Key)
    ensures |Delete(es, k)| <= |es|
  {
    if es != [] {
      DeleteSize(es[1..], k);
    }
  }

  lemma {:induction false} DeleteMissing(es: seq<Entry>, k: Key)
    ensures Lookup(es, k).None? ==> Delete(es, k) == es
  {
    hide Less, Weight;
    if es != [] {
      DeleteMissing(es[1..], k);
    }
  }
}
