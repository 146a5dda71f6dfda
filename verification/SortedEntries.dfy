/**
 * Sorted association lists: the specification of a map's contents. A strictly sorted
 * list of entries stands for a finite map listed in key order.
 */
module SortedEntries {
  import opened Bytes

  type Value = seq<Byte>

  datatype Entry = Entry(key: Key, value: Value)

  ghost predicate Sorted(es: seq<Entry>) {
    forall i, j :: 0 <= i < j < |es| ==> Less(es[i].key, es[j].key)
  }

  ghost predicate Below(es: seq<Entry>, k: Key) {
    forall e :: e in es ==> Less(e.key, k)
  }

  ghost predicate Above(k: Key, es: seq<Entry>) {
    forall e :: e in es ==> Less(k, e.key)
  }

  /** The finite map a list of entries stands for. */
  function MapOf(es: seq<Entry>): (m: map<Key, Value>) {
    if es == [] then map[] else MapOf(es[1..])[es[0].key := es[0].value]
  }

  /** The value stored under k. */
  function Lookup(es: seq<Entry>, k: Key): (r: Option<Value>) {
    if es == [] then None
    else if es[0].key == k then Some(es[0].value)
    else Lookup(es[1..], k)
  }

  /** The list after putting k: replace its entry or insert one in order. */
  function Put(es: seq<Entry>, k: Key, v: Value): (r: seq<Entry>) {
    if es == [] || Less(k, es[0].key) then [Entry(k, v)] + es
    else if es[0].key == k then [Entry(k, v)] + es[1..]
    else [es[0]] + Put(es[1..], k, v)
  }

  /** The list after removing k. */
  function Delete(es: seq<Entry>, k: Key): (r: seq<Entry>) {
    if es == [] then []
    else if es[0].key == k then es[1..]
    else [es[0]] + Delete(es[1..], k)
  }

  // ---------------------------------------------------------------- meaning as a map

  /** Looking up a key reads the finite map. */
  lemma {:induction false} LookupIsMap(es: seq<Entry>, k: Key)
    ensures Lookup(es, k) == if k in MapOf(es) then Some(MapOf(es)[k]) else None
  {
    if es != [] {
      LookupIsMap(es[1..], k);
    }
  }

  /** Every key of the map is the key of an entry. */
  lemma {:induction false} MapKeys(es: seq<Entry>, k: Key)
    ensures k in MapOf(es) <==> exists e :: e in es && e.key == k
  {
    if es != [] {
      MapKeys(es[1..], k);
      assert forall e :: e in es <==> e == es[0] || e in es[1..];
    }
  }

  /** Putting into the list updates the map at that key and nowhere else. */
  lemma {:induction false} PutIsMapUpdate(es: seq<Entry>, k: Key, v: Value)
    ensures MapOf(Put(es, k, v)) == MapOf(es)[k := v]
  {
    hide Less;
    if es == [] || Less(k, es[0].key) {
      assert Put(es, k, v)[1..] == es;
    } else if es[0].key == k {
      assert Put(es, k, v)[1..] == es[1..];
    } else {
      PutIsMapUpdate(es[1..], k, v);
      assert Put(es, k, v)[1..] == Put(es[1..], k, v);
    }
  }

  /** Putting keeps the list sorted and adds no key but k. */
  lemma {:induction false} PutSorted(es: seq<Entry>, k: Key, v: Value)
    requires Sorted(es)
    ensures Sorted(Put(es, k, v))
    ensures forall e :: e in Put(es, k, v) ==> e == Entry(k, v) || e in es
  {
    hide Less, Weight;
    if es != [] {
      Trichotomy(es[0].key, k);
      if Less(es[0].key, k) {
        PutSorted(es[1..], k, v);
        var t := Put(es[1..], k, v);
        assert Put(es, k, v) == [es[0]] + t;
        assert forall j :: 0 <= j < |t| ==> t[j] in t;
      }
    }
  }

  /** Removing from a sorted list removes that key from the map and nothing else. */
  lemma {:induction false} DeleteIsMapRemove(es: seq<Entry>, k: Key)
    requires Sorted(es)
    ensures MapOf(Delete(es, k)) == MapOf(es) - {k}
    ensures Sorted(Delete(es, k))
    ensures forall e :: e in Delete(es, k) ==> e in es
  {
    hide Less, Weight;
    if es != [] {
      if es[0].key == k {
        MapKeys(es[1..], k);
      } else {
        DeleteIsMapRemove(es[1..], k);
        assert Delete(es, k)[1..] == Delete(es[1..], k);
      }
    }
  }

  // ---------------------------------------------------------------- lists cut in pieces

  lemma {:induction false} PutPrefix(a: seq<Entry>, b: seq<Entry>, k: Key, v: Value)
    requires Below(a, k)
    ensures Put(a + b, k, v) == a + Put(b, k, v)
  {
    hide Less, Weight, Put;
    if a == [] {
      assert a + b == b;
    } else {
      assert a[0] in a;
      PutPrefix(a[1..], b, k, v);
      assert a == [a[0]] + a[1..] && a + b == [a[0]] + (a[1..] + b);
      PutBehind(a[0], a[1..] + b, k, v);
    }
  }

  lemma PutBehind(e: Entry, es: seq<Entry>, k: Key, v: Value)
    requires Less(e.key, k)
    ensures Put([e] + es, k, v) == [e] + Put(es, k, v)
  {
    assert ([e] + es)[1..] == es;
  }

  lemma {:induction false} PutSuffix(b: seq<Entry>, c: seq<Entry>, k: Key, v: Value)
    requires Above(k, c)
    ensures Put(b + c, k, v) == Put(b, k, v) + c
  {
    hide Less, Weight;
    if b == [] {
      assert b + c == c;
      assert c != [] ==> c[0] in c;
    } else {
      assert (b + c)[1..] == b[1..] + c;
      PutSuffix(b[1..], c, k, v);
    }
  }

  lemma {:induction false} DeletePrefix(a: seq<Entry>, b: seq<Entry>, k: Key)
    requires Below(a, k)
    ensures Delete(a + b, k) == a + Delete(b, k)
  {
    hide Less, Weight, Delete;
    if a == [] {
      assert a + b == b;
    } else {
      assert a[0] in a;
      DeletePrefix(a[1..], b, k);
      assert a == [a[0]] + a[1..] && a + b == [a[0]] + (a[1..] + b);
      DeleteBehind(a[0], a[1..] + b, k);
    }
  }

  lemma DeleteBehind(e: Entry, es: seq<Entry>, k: Key)
    requires Less(e.key, k)
    ensures Delete([e] + es, k) == [e] + Delete(es, k)
  {
    assert ([e] + es)[1..] == es;
  }

  lemma {:induction false} DeleteSuffix(b: seq<Entry>, c: seq<Entry>, k: Key)
    requires Above(k, c)
    ensures Delete(b + c, k) == Delete(b, k) + c
  {
    hide Less, Weight;
    if b != [] {
      assert (b + c)[1..] == b[1..] + c;
      DeleteSuffix(b[1..], c, k);
    } else if c != [] {
      assert c[0] in c && b + c == c;
      DeleteSuffix(b, c[1..], k);
      assert b + c[1..] == c[1..];
    }
  }

  lemma {:induction false} LookupPrefix(a: seq<Entry>, b: seq<Entry>, k: Key)
    requires Below(a, k)
    ensures Lookup(a + b, k) == Lookup(b, k)
  {
    hide Less, Weight;
    if a == [] {
      assert a + b == b;
    } else {
      assert a[0] in a;
      LookupPrefix(a[1..], b, k);
      assert (a + b)[1..] == a[1..] + b;
    }
  }

  lemma {:induction false} LookupSuffix(b: seq<Entry>, c: seq<Entry>, k: Key)
    requires Above(k, c)
    ensures Lookup(b + c, k) == Lookup(b, k)
  {
    hide Less, Weight;
    if b != [] {
      assert (b + c)[1..] == b[1..] + c;
      LookupSuffix(b[1..], c, k);
    } else if c != [] {
      assert c[0] in c && b + c == c;
      LookupSuffix(b, c[1..], k);
      assert b + c[1..] == c[1..];
    }
  }

  /** Putting, removing and looking up k only concern the piece of the list where k belongs. */
  lemma OnMiddle(a: seq<Entry>, b: seq<Entry>, c: seq<Entry>, k: Key, v: Value)
    requires Below(a, k) && Above(k, c)
    ensures Put(a + b + c, k, v) == a + Put(b, k, v) + c
    ensures Delete(a + b + c, k) == a + Delete(b, k) + c
    ensures Lookup(a + b + c, k) == Lookup(b, k)
  {
    hide *;
    assert a + b + c == a + (b + c);
    PutPrefix(a, b + c, k, v);
    PutSuffix(b, c, k, v);
    DeletePrefix(a, b + c, k);
    DeleteSuffix(b, c, k);
    LookupPrefix(a, b + c, k);
    LookupSuffix(b, c, k);
  }
}
