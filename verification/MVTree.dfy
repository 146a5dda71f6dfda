/** The mutable tree object: a root page replaced by every change. */
module MVTree {
  import opened Bytes
  import opened SortedEntries
  import opened BTree
  import opened TreeScan

  /** The root page after a put: a split root gets a new branch above it. */
  function RootPut(root: Page, k: Key, v: Value, max: nat): (r: Page)
    requires WellFormed(root, max)
  {
    match Insert(root, k, v, max)
    case Whole(p) => p
    case Split(l, pivot, q) => Branch([pivot], [l, q])
  }

  /** A root with no bounds whose leaves are all `depth` levels down. */
  ghost predicate Rooted(root: Page, depth: nat, max: nat) {
    Wf(root, None, None, depth, max)
  }

  /** Putting at the root keeps it well-formed, growing at most one level. */
  lemma RootPutCorrect(root: Page, k: Key, v: Value, depth: nat, max: nat)
    requires max >= 1 && Rooted(root, depth, max)
    ensures Flatten(RootPut(root, k, v, max)) == Put(Flatten(root), k, v)
    ensures Rooted(RootPut(root, k, v, max), if Insert(root, k, v, max).Split? then depth + 1 else depth, max)
  {
    hide Less, Weight, Insert, Put;
    InsertCorrect(root, k, v, None, None, depth, max);
    match Insert(root, k, v, max)
    case Whole(_) =>
    case Split(l, pivot, q) =>
      assert [l, q][1..] == [q] && [q][1..] == [];
      assert FlattenAll([q]) == Flatten(q);
      assert FlattenAll([l, q]) == Flatten(l) + Flatten(q);
      assert ChildrenOk([pivot], [l, q], None, None, depth, max);
  }

  class MVTree {
    var root: Page
    const maxEntriesPerPage: nat
    ghost var depth: nat

    ghost predicate Valid()
      reads this
    {
      Rooted(root, depth, maxEntriesPerPage)
    }

    /** The entries in key order. */
    ghost function Contents(): (es: seq<Entry>)
      reads this
    {
      Flatten(root)
    }

    constructor (max: nat)
      ensures Valid() && Contents() == [] && maxEntriesPerPage == max
    {
      root := Leaf([]);
      maxEntriesPerPage := max;
      depth := 0;
    }

    method Get(k: Key) returns (r: Option<Value>)
      requires Valid()
      ensures r == Lookup(Contents(), k)
    {
      hide Less, Weight, Lookup, ChildIndex;
      var curr := root;
      ghost var lo: Option<Key>, hi: Option<Key>, d := None, None, depth;
      while curr.Branch?
        invariant Wf(curr, lo, hi, d, maxEntriesPerPage)
        invariant Lookup(Flatten(curr), k) == Lookup(Contents(), k)
        decreases curr
      {
        var i := ChildIndex(curr.keys, k);
        CutAtChild(curr.keys, curr.children, lo, hi, d - 1, maxEntriesPerPage, k);
        OnMiddle(FlattenAll(curr.children[..i]), Flatten(curr.children[i]), FlattenAll(curr.children[i + 1..]), k, []);
        lo, hi, d := LowerAt(curr.keys, lo, i), UpperAt(curr.keys, hi, i), d - 1;
        curr := curr.children[i];
      }
      LeafRemoveCorrect(curr.entries, k);
      match Search(Keys(curr.entries), k)
      case Found(i) => r := Some(curr.entries[i].value);
      case Missing(_) => r := None;
    }

    method Put(k: Key, v: Value)
      requires Valid() && maxEntriesPerPage >= 1
      modifies this
      ensures Valid()
      ensures Contents() == SortedEntries.Put(old(Contents()), k, v)
    {
      hide Less, Weight, Insert, Flatten, Wf, SortedEntries.Put;
      RootPutCorrect(root, k, v, depth, maxEntriesPerPage);
      match Insert(root, k, v, maxEntriesPerPage)
      case Whole(p) => root := p;
      case Split(l, pivot, q) => root, depth := Branch([pivot], [l, q]), depth + 1;
    }

    method Remove(k: Key) returns (r: Option<Value>)
      requires Valid()
      modifies this
      ensures Valid()
      ensures r == Lookup(old(Contents()), k)
      ensures Contents() == Delete(old(Contents()), k)
    {
      RemoveCorrect(root, k, None, None, depth, maxEntriesPerPage);
      DeleteMissing(Flatten(root), k);
      var removed := BTree.Remove(root, k, maxEntriesPerPage);
      r := removed.taken;
      if r.Some? {
        root := removed.page;
      }
    }

    method ScanAll() returns (r: seq<Entry>)
      requires Valid()
      ensures r == Contents() && Sorted(r)
    {
      FlattenSorted(root, None, None, depth, maxEntriesPerPage);
      r := CollectEntries(root, []);
    }

    method ScanPrefix(prefix: Key) returns (r: seq<Entry>)
      requires Valid()
      ensures r == Select(Contents(), Prefix(prefix))
    {
      r := CollectPrefix(root, prefix, [], None, None, depth, maxEntriesPerPage);
    }

    method ScanRange(start: End, end: End) returns (r: seq<Entry>)
      requires Valid()
      ensures r == Select(Contents(), Range(start, end))
    {
      r := CollectRange(root, start, end, [], None, None, depth, maxEntriesPerPage);
    }
  }

  // ---------------------------------------------------------------- every run of puts and removes

  datatype Op = PutOp(key: Key, value: Value) | RemoveOp(key: Key)

  ghost predicate ValidRoot(root: Page, max: nat) {
    exists depth: nat :: Rooted(root, depth, max)
  }

  lemma ValidRootWellFormed(root: Page, max: nat)
    requires ValidRoot(root, max)
    ensures WellFormed(root, max)
  {
    var depth: nat :| Rooted(root, depth, max);
    assert Wf(root, None, None, depth, max);
  }

  function Step(root: Page, op: Op, max: nat): (r: Page)
    requires ValidRoot(root, max)
  {
    ValidRootWellFormed(root, max);
    match op
    case PutOp(k, v) => RootPut(root, k, v, max)
    case RemoveOp(k) => var r := BTree.Remove(root, k, max); if r.taken.Some? then r.page else root
  }

  function StepMap(m: map<Key, Value>, op: Op): (r: map<Key, Value>) {
    match op
    case PutOp(k, v) => m[k := v]
    case RemoveOp(k) => m - {k}
  }

  /** One operation keeps the tree valid and does to its contents what it does to the map. */
  lemma StepCorrect(root: Page, op: Op, max: nat)
    requires max >= 1 && ValidRoot(root, max)
    ensures ValidRoot(Step(root, op, max), max)
    ensures MapOf(Flatten(Step(root, op, max))) == StepMap(MapOf(Flatten(root)), op)
  {
    hide Less, Weight, Insert, BTree.Remove, Put, Delete, Lookup, Flatten, MapOf;
    ValidRootWellFormed(root, max);
    var depth: nat :| Rooted(root, depth, max);
    FlattenSorted(root, None, None, depth, max);
    match op
    case PutOp(k, v) =>
      RootPutCorrect(root, k, v, depth, max);
      PutIsMapUpdate(Flatten(root), k, v);
    case RemoveOp(k) =>
      RemoveCorrect(root, k, None, None, depth, max);
      DeleteMissing(Flatten(root), k);
      DeleteIsMapRemove(Flatten(root), k);
      assert Rooted(BTree.Remove(root, k, max).page, depth, max);
  }

  /** The root after a run of operations on an empty tree. */
  function Run(ops: seq<Op>, max: nat): (root: Page)
    requires max >= 1
    ensures ValidRoot(root, max)
  {
    if ops == [] then
      assert Rooted(Leaf([]), 0, max);
      Leaf([])
    else
      var before := Run(ops[..|ops| - 1], max);
      StepCorrect(before, ops[|ops| - 1], max);
      Step(before, ops[|ops| - 1], max)
  }

  /** The same run on a finite map. */
  function RunMap(ops: seq<Op>): (m: map<Key, Value>) {
    if ops == [] then map[] else StepMap(RunMap(ops[..|ops| - 1]), ops[|ops| - 1])
  }

  /**
   * After every run from the empty tree the scan lists, in strictly increasing key order,
   * exactly the finite map the run computes, and a lookup reads that map; the tree stays
   * balanced, bounded and within its page size (the contract of `Run`).
   */
  lemma {:induction false} RunIsFiniteMap(ops: seq<Op>, max: nat, k: Key)
    requires max >= 1
    ensures Sorted(Flatten(Run(ops, max)))
    ensures MapOf(Flatten(Run(ops, max))) == RunMap(ops)
    ensures Lookup(Flatten(Run(ops, max)), k) == if k in RunMap(ops) then Some(RunMap(ops)[k]) else None
  {
    hide Less, Weight, Step, StepMap, Lookup;
    var root := Run(ops, max);
    var depth: nat :| Rooted(root, depth, max);
    FlattenSorted(root, None, None, depth, max);
    if ops != [] {
      RunIsFiniteMap(ops[..|ops| - 1], max, k);
      StepCorrect(Run(ops[..|ops| - 1], max), ops[|ops| - 1], max);
    }
    LookupIsMap(Flatten(root), k);
  }

  /** With a page size of zero the very first put already exceeds it, so no valid tree results. */
  lemma ZeroPageSize(k: Key, v: Value, depth: nat)
    ensures Rooted(Leaf([]), 0, 0)
    ensures WellFormed(Leaf([]), 0)
    ensures !Rooted(RootPut(Leaf([]), k, v, 0), depth, 0)
  {
    hide Less, Weight, Insert, Wf;
    EmptyLeaf();
    assert WellFormed(Leaf([]), 0);
    FirstInsert(k, v);
    TooWide(k, Leaf([]), Leaf([Entry(k, v)]), depth);
  }

  lemma EmptyLeaf()
    ensures Wf(Leaf([]), None, None, 0, 0)
  {
    hide Less, Weight;
  }

  lemma FirstInsert(k: Key, v: Value)
    requires WellFormed(Leaf([]), 0)
    ensures Insert(Leaf([]), k, v, 0) == Split(Leaf([]), k, Leaf([Entry(k, v)]))
  {
    hide Less, Weight, WellFormed, LeafPut;
    LeafPutIsPut([], k, v);
    var es := [Entry(k, v)];
    assert LeafPut([], k, v) == es && es[..0] == [] && es[0..] == es;
  }

  lemma TooWide(k: Key, l: Page, r: Page, depth: nat)
    ensures !Wf(Branch([k], [l, r]), None, None, depth, 0)
  {
    hide Less, Weight;
  }
}
