/** Bytes, byte strings and their lexicographic order (the order of Rust's `[u8]::cmp`). */
module Bytes {

  type Byte = x: int | 0 <= x < 256

  type Key = seq<Byte>

  datatype Option<+T> = None | Some(value: T)

  /** Strict lexicographic order: a proper prefix comes before its extensions. */
  predicate Less(a: Key, b: Key)
    ensures Less(a, b) <==> Weight(a) < Weight(b)
  {
    if b == [] then false
    else if a == [] then true
    else if a[0] != b[0] then a[0] < b[0]
    else Less(a[1..], b[1..])
  }

  /**
   * An order embedding of byte strings into the reals: the string read as a
   * fraction in base 257 with digits 1..256. It turns every order argument about
   * keys into linear arithmetic.
   */
  ghost function Weight(a: Key): (w: real)
    ensures 0.0 <= w < 1.0
    ensures w == 0.0 <==> a == []
  {
    if a == [] then 0.0 else (a[0] as real + 1.0 + Weight(a[1..])) / 257.0
  }

  lemma {:induction false} WeightInjective(a: Key, b: Key)
    requires Weight(a) == Weight(b)
    ensures a == b
  {
    if a != [] && b != [] {
      assert a[0] as real + Weight(a[1..]) == b[0] as real + Weight(b[1..]);
      assert a[0] == b[0];
      WeightInjective(a[1..], b[1..]);
      assert a == [a[0]] + a[1..] && b == [b[0]] + b[1..];
    }
  }

  /** The order is total: two strings that do not precede one another are the same. */
  lemma Trichotomy(a: Key, b: Key)
    ensures a == b || Less(a, b) || Less(b, a)
  {
    if Weight(a) == Weight(b) {
      WeightInjective(a, b);
    }
  }

  /** Two strings compare by their first difference; a proper prefix comes first. */
  ghost predicate FirstDifference(a: Key, b: Key, k: nat) {
    k <= |a| && k < |b| && a[..k] == b[..k] && (k == |a| || a[k] < b[k])
  }

  lemma {:induction false} LessExactly(a: Key, b: Key)
    ensures Less(a, b) <==> exists k :: FirstDifference(a, b, k)
  {
    hide Weight;
    if a == [] {
      assert b != [] ==> FirstDifference(a, b, 0);
    } else if b != [] {
      if a[0] == b[0] {
        LessExactly(a[1..], b[1..]);
        forall k: nat ensures FirstDifference(a, b, k + 1) <==> FirstDifference(a[1..], b[1..], k) {
          Shifted(a, b, k);
        }
        assert !FirstDifference(a, b, 0);
        forall k: nat | k > 0 ensures FirstDifference(a, b, k) <==> FirstDifference(a[1..], b[1..], k - 1) {
          Shifted(a, b, k - 1);
        }
      } else {
        assert forall k: nat :: k > 0 && k <= |a| && k <= |b| ==> a[..k][0] == a[0] && b[..k][0] == b[0];
        assert FirstDifference(a, b, 0) <==> a[0] < b[0];
      }
    }
  }

  lemma Shifted(a: Key, b: Key, k: nat)
    requires a != [] && b != [] && a[0] == b[0]
    ensures FirstDifference(a, b, k + 1) <==> FirstDifference(a[1..], b[1..], k)
  {
    if k < |a| && k < |b| {
      assert a[..k + 1] == [a[0]] + a[1..][..k] && b[..k + 1] == [b[0]] + b[1..][..k];
      assert a[..k + 1][1..] == a[1..][..k] && b[..k + 1][1..] == b[1..][..k];
    }
  }
}
