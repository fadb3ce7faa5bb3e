/**
 * Sorting a list by a string key, as Swift's `sorted { key($0) < key($1) }`
 * does. That sort is stable: elements with equal keys keep their input
 * order. The model sorts by stable insertion and proves that the result is
 * ordered, a permutation of the input and stable, and that being ordered
 * and stable already fixes the result, whatever algorithm produces it.
 */
module Sorting {
  import opened TextOrder

  /** `a` does not sort after `b`. */
  predicate NotAbove(a: string, b: string) {
    !Below(b, a)
  }

  /** No element sorts before an element that comes earlier. */
  predicate SortedBy<T>(s: seq<T>, key: T -> string) {
    forall i, j :: 0 <= i < j < |s| ==> NotAbove(key(s[i]), key(s[j]))
  }

  lemma NotAboveTransitive(a: string, b: string, c: string)
    requires NotAbove(a, b) && NotAbove(b, c)
    ensures NotAbove(a, c)
  {
    if Below(c, a) {
      BelowTrichotomy(a, b);
      if Below(a, b) {
        BelowTransitive(c, a, b);
      }
    }
  }

  /** A key not above every key of a sorted list may be put in front of it. */
  lemma ConsSorted<T>(x: T, s: seq<T>, key: T -> string)
    requires SortedBy(s, key)
    requires forall y :: y in s ==> NotAbove(key(x), key(y))
    ensures SortedBy([x] + s, key)
  {
    forall i, j | 0 <= i < j < |[x] + s|
      ensures NotAbove(key(([x] + s)[i]), key(([x] + s)[j]))
    {
      if i == 0 {
        assert ([x] + s)[j] == s[j - 1];
      }
    }
  }

  /** Puts `x` into the sorted list `s` before the first element whose key is not below `x`'s. */
  function Insert<T>(x: T, s: seq<T>, key: T -> string): (r: seq<T>)
    requires SortedBy(s, key)
    ensures SortedBy(r, key)
    ensures multiset(r) == multiset(s) + multiset{x}
  {
    if s == [] then [x]
    else if NotAbove(key(x), key(s[0])) then
      assert forall y :: y in s ==> NotAbove(key(x), key(y)) by {
        forall y | y in s ensures NotAbove(key(x), key(y)) {
          HeadLeast(s, y, key);
          NotAboveTransitive(key(x), key(s[0]), key(y));
        }
      }
      ConsSorted(x, s, key);
      [x] + s
    else
      TailSorted(s, key);
      var rest := Insert(x, s[1..], key);
      assert s == [s[0]] + s[1..];
      assert forall y :: y in rest ==> NotAbove(key(s[0]), key(y)) by {
        forall y | y in rest ensures NotAbove(key(s[0]), key(y)) {
          assert y in multiset(rest);
          if y == x {
            BelowAsymmetric(key(s[0]), key(x));
          } else {
            assert y in multiset(s[1..]);
            var j :| 0 <= j < |s[1..]| && s[1..][j] == y;
            assert s[j + 1] == y;
          }
        }
      }
      ConsSorted(s[0], rest, key);
      [s[0]] + rest
  }

  /** Insertion sort by `key`. */
  function SortBy<T>(s: seq<T>, key: T -> string): (r: seq<T>)
    ensures SortedBy(r, key)
    ensures multiset(r) == multiset(s)
  {
    if s == [] then []
    else
      assert s == [s[0]] + s[1..];
      Insert(s[0], SortBy(s[1..], key), key)
  }

  lemma TailSorted<T>(s: seq<T>, key: T -> string)
    requires SortedBy(s, key) && s != []
    ensures SortedBy(s[1..], key)
  {
    forall i, j | 0 <= i < j < |s[1..]|
      ensures NotAbove(key(s[1..][i]), key(s[1..][j]))
    {
      assert s[1..][i] == s[i + 1] && s[1..][j] == s[j + 1];
    }
  }

  /** The first element of a sorted list has a key not above any other element's. */
  lemma HeadLeast<T>(s: seq<T>, y: T, key: T -> string)
    requires SortedBy(s, key) && y in s
    ensures NotAbove(key(s[0]), key(y))
  {
    var j :| 0 <= j < |s| && s[j] == y;
    if j == 0 {
      BelowIrreflexive(key(y));
    }
  }

  lemma HeadsEqual<T>(a: seq<T>, b: seq<T>, key: T -> string)
    requires SortedBy(a, key) && SortedBy(b, key) && a != [] && b != []
    requires multiset(a) == multiset(b)
    requires forall x, y :: x in a && y in a && key(x) == key(y) ==> x == y
    ensures a[0] == b[0]
  {
    assert a[0] in multiset(b) && b[0] in multiset(a);
    HeadLeast(b, a[0], key);
    HeadLeast(a, b[0], key);
    BelowTrichotomy(key(a[0]), key(b[0]));
  }

  /**
   * Two sorted permutations of the same list are equal when no two of its
   * elements share a key: which sorting algorithm is used does not matter.
   */
  lemma {:induction false} SortedPermutationsEqual<T>(a: seq<T>, b: seq<T>, key: T -> string)
    requires SortedBy(a, key) && SortedBy(b, key)
    requires multiset(a) == multiset(b)
    requires forall x, y :: x in a && y in a && key(x) == key(y) ==> x == y
    ensures a == b
  {
    if a == [] {
      assert |b| == |multiset(b)| == 0;
    } else {
      assert |b| == |multiset(b)| == |multiset(a)| == |a|;
      HeadsEqual(a, b, key);
      assert a == [a[0]] + a[1..] && b == [b[0]] + b[1..];
      assert multiset(a[1..]) == multiset(a) - multiset{a[0]};
      assert multiset(b[1..]) == multiset(b) - multiset{b[0]};
      TailSorted(a, key);
      TailSorted(b, key);
      SortedPermutationsEqual(a[1..], b[1..], key);
    }
  }

  /** The elements of `s` whose key is `k`, in the order of `s`. */
  function WithKey<T>(s: seq<T>, key: T -> string, k: string): (r: seq<T>)
    ensures |r| <= |s|
  {
    if s == [] then []
    else (if key(s[0]) == k then [s[0]] else []) + WithKey(s[1..], key, k)
  }

  lemma {:induction false} WithKeyCons<T>(x: T, s: seq<T>, key: T -> string, k: string)
    ensures WithKey([x] + s, key, k) == (if key(x) == k then [x] else []) + WithKey(s, key, k)
  {
    assert ([x] + s)[0] == x && ([x] + s)[1..] == s;
  }

  /** Where `x` goes when its key is above the head's. */
  lemma {:induction false} InsertPastHead<T>(x: T, s: seq<T>, key: T -> string)
    requires SortedBy(s, key) && s != [] && !NotAbove(key(x), key(s[0]))
    ensures SortedBy(s[1..], key)
    ensures Insert(x, s, key) == [s[0]] + Insert(x, s[1..], key)
  {
    TailSorted(s, key);
  }

  /** Where `x` goes when its key is not above the head's. */
  lemma {:induction false} InsertAtHead<T>(x: T, s: seq<T>, key: T -> string)
    requires SortedBy(s, key) && (s == [] || NotAbove(key(x), key(s[0])))
    ensures Insert(x, s, key) == [x] + s
  {
  }

  /** The stability step when `x`'s key equals `k` and is above the head's. */
  lemma {:induction false} InsertStablePastHeadSameKey<T>(x: T, s: seq<T>, key: T -> string, k: string)
    requires SortedBy(s, key) && s != [] && !NotAbove(key(x), key(s[0])) && key(x) == k
    requires SortedBy(s[1..], key)
    requires WithKey(Insert(x, s[1..], key), key, k) == [x] + WithKey(s[1..], key, k)
    ensures WithKey(Insert(x, s, key), key, k) == [x] + WithKey(s, key, k)
  {
    var rest := Insert(x, s[1..], key);
    InsertPastHead(x, s, key);
    assert key(s[0]) != k by {
      BelowIrreflexive(key(x));
    }
    WithKeyCons(s[0], rest, key, k);
    assert WithKey(Insert(x, s, key), key, k) == WithKey(rest, key, k);
    assert s == [s[0]] + s[1..];
    WithKeyCons(s[0], s[1..], key, k);
    assert WithKey(s, key, k) == WithKey(s[1..], key, k);
  }

  /** The stability step when `x`'s key is not `k` and is above the head's. */
  lemma {:induction false} InsertStablePastHeadOtherKey<T>(x: T, s: seq<T>, key: T -> string, k: string)
    requires SortedBy(s, key) && s != [] && !NotAbove(key(x), key(s[0])) && key(x) != k
    requires SortedBy(s[1..], key)
    requires WithKey(Insert(x, s[1..], key), key, k) == WithKey(s[1..], key, k)
    ensures WithKey(Insert(x, s, key), key, k) == WithKey(s, key, k)
  {
    InsertPastHead(x, s, key);
    assert s == [s[0]] + s[1..];
    WithKeyCons(s[0], Insert(x, s[1..], key), key, k);
    WithKeyCons(s[0], s[1..], key, k);
  }

  /** `x` lands in front of every element that shares its key. */
  lemma {:induction false} InsertStable<T>(x: T, s: seq<T>, key: T -> string, k: string)
    requires SortedBy(s, key)
    ensures WithKey(Insert(x, s, key), key, k) == (if key(x) == k then [x] else []) + WithKey(s, key, k)
  {
    if s == [] || NotAbove(key(x), key(s[0])) {
      InsertAtHead(x, s, key);
      WithKeyCons(x, s, key, k);
    } else {
      TailSorted(s, key);
      InsertStable(x, s[1..], key, k);
      if key(x) == k {
        InsertStablePastHeadSameKey(x, s, key, k);
      } else {
        assert [] + WithKey(s[1..], key, k) == WithKey(s[1..], key, k);
        InsertStablePastHeadOtherKey(x, s, key, k);
      }
    }
  }

  /** Sorting keeps the elements of each key in their input order. */
  lemma {:induction false} SortByStable<T>(s: seq<T>, key: T -> string, k: string)
    ensures WithKey(SortBy(s, key), key, k) == WithKey(s, key, k)
    decreases |s|
  {
    if s != [] {
      SortByStable(s[1..], key, k);
      InsertStable(s[0], SortBy(s[1..], key), key, k);
      assert s == [s[0]] + s[1..];
      WithKeyCons(s[0], s[1..], key, k);
    }
  }

  lemma {:induction false} WithKeyMember<T>(s: seq<T>, key: T -> string, k: string, x: T)
    requires x in WithKey(s, key, k)
    ensures x in s && key(x) == k
  {
    if s != [] {
      if x != s[0] || key(s[0]) != k {
        WithKeyMember(s[1..], key, k, x);
      }
    }
  }

  /** A non-empty list has an element with the key of its head. */
  lemma WithKeyOfHead<T>(s: seq<T>, key: T -> string)
    requires s != []
    ensures WithKey(s, key, key(s[0])) != []
  {
    WithKeyCons(s[0], s[1..], key, key(s[0]));
    assert s == [s[0]] + s[1..];
  }

  /** The heads of two sorted lists with the same elements per key have the same key. */
  lemma {:induction false} StableHeadsEqual<T>(a: seq<T>, b: seq<T>, key: T -> string)
    requires SortedBy(a, key) && SortedBy(b, key) && a != [] && b != []
    requires forall k :: WithKey(a, key, k) == WithKey(b, key, k)
    ensures a[0] == b[0]
  {
    WithKeyCons(a[0], a[1..], key, key(a[0]));
    WithKeyCons(b[0], b[1..], key, key(b[0]));
    assert a == [a[0]] + a[1..] && b == [b[0]] + b[1..];
    WithKeyMember(b, key, key(a[0]), a[0]);
    WithKeyMember(a, key, key(b[0]), b[0]);
    HeadLeast(b, a[0], key);
    HeadLeast(a, b[0], key);
    BelowTrichotomy(key(a[0]), key(b[0]));
    assert WithKey(a, key, key(a[0]))[0] == a[0];
  }

  /**
   * Two sorted lists that hold the same elements of every key in the same
   * order are equal: a stable sort has only one possible result.
   */
  lemma {:induction false} SortedStableEqual<T>(a: seq<T>, b: seq<T>, key: T -> string)
    requires SortedBy(a, key) && SortedBy(b, key)
    requires forall k :: WithKey(a, key, k) == WithKey(b, key, k)
    ensures a == b
  {
    if a == [] && b != [] {
      WithKeyOfHead(b, key);
    } else if a != [] && b == [] {
      WithKeyOfHead(a, key);
    } else if a != [] {
      StableHeadsEqual(a, b, key);
      assert a == [a[0]] + a[1..] && b == [b[0]] + b[1..];
      forall k ensures WithKey(a[1..], key, k) == WithKey(b[1..], key, k) {
        WithKeyCons(a[0], a[1..], key, k);
        WithKeyCons(b[0], b[1..], key, k);
        var h: seq<T> := if key(a[0]) == k then [a[0]] else [];
        assert WithKey(a[1..], key, k) == (h + WithKey(a[1..], key, k))[|h|..];
        assert WithKey(b[1..], key, k) == (h + WithKey(b[1..], key, k))[|h|..];
      }
      TailSorted(a, key);
      TailSorted(b, key);
      SortedStableEqual(a[1..], b[1..], key);
    }
  }
}
