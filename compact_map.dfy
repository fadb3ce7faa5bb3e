/**
 * Swift's `compactMap`: apply a transform that may yield nil to every
 * element in order, drop the nils and keep the rest in the order they came.
 */
module CompactMaps {
  import opened Wrappers

  function CompactMap<A, B>(s: seq<A>, f: A -> Option<B>): (r: seq<B>)
    ensures |r| <= |s|
  {
    if s == [] then []
    else
      match f(s[0])
      case Some(b) => [b] + CompactMap(s[1..], f)
      case None => CompactMap(s[1..], f)
  }

  /**
   * The positions from `i` on whose transform is not nil, in increasing
   * order: the reference against which `CompactMap` is shown to keep order.
   */
  function KeptIndicesFrom<A, B>(s: seq<A>, f: A -> Option<B>, i: nat): (k: seq<nat>)
    requires i <= |s|
    ensures forall m :: 0 <= m < |k| ==> i <= k[m] < |s| && f(s[k[m]]).Some?
    ensures forall m, n :: 0 <= m < n < |k| ==> k[m] < k[n]
    ensures forall j :: i <= j < |s| && f(s[j]).Some? ==> j in k
    decreases |s| - i
  {
    if i == |s| then []
    else if f(s[i]).Some? then [i] + KeptIndicesFrom(s, f, i + 1)
    else KeptIndicesFrom(s, f, i + 1)
  }

  function KeptIndices<A, B>(s: seq<A>, f: A -> Option<B>): seq<nat> {
    KeptIndicesFrom(s, f, 0)
  }

  lemma {:induction false} CompactMapOrderFrom<A, B>(s: seq<A>, f: A -> Option<B>, i: nat)
    requires i <= |s|
    ensures |CompactMap(s[i..], f)| == |KeptIndicesFrom(s, f, i)|
    ensures forall m :: 0 <= m < |KeptIndicesFrom(s, f, i)| ==>
              f(s[KeptIndicesFrom(s, f, i)[m]]) == Some(CompactMap(s[i..], f)[m])
    decreases |s| - i
  {
    if i < |s| {
      assert s[i..][0] == s[i] && s[i..][1..] == s[i + 1..];
      CompactMapOrderFrom(s, f, i + 1);
      var k, k' := KeptIndicesFrom(s, f, i), KeptIndicesFrom(s, f, i + 1);
      var r, r' := CompactMap(s[i..], f), CompactMap(s[i + 1..], f);
      match f(s[i])
      case Some(b) =>
        assert k == [i] + k' && r == [b] + r';
        forall m | 0 <= m < |k| ensures f(s[k[m]]) == Some(r[m]) {
          if m > 0 {
            assert k[m] == k'[m - 1] && r[m] == r'[m - 1];
          }
        }
      case None =>
        assert k == k' && r == r';
    }
  }

  /**
   * The result lists the non-nil transforms of exactly the kept positions,
   * in the order of those positions: nothing is reordered, nothing present
   * is lost.
   */
  lemma CompactMapOrder<A, B>(s: seq<A>, f: A -> Option<B>)
    ensures |CompactMap(s, f)| == |KeptIndices(s, f)|
    ensures forall m :: 0 <= m < |KeptIndices(s, f)| ==>
              f(s[KeptIndices(s, f)[m]]) == Some(CompactMap(s, f)[m])
  {
    CompactMapOrderFrom(s, f, 0);
    assert s[0..] == s;
  }

  /** An element is in the result exactly when some input element is transformed into it. */
  lemma {:induction false} CompactMapMember<A, B>(s: seq<A>, f: A -> Option<B>, b: B)
    ensures b in CompactMap(s, f) <==> exists i :: 0 <= i < |s| && f(s[i]) == Some(b)
  {
    if s != [] {
      CompactMapMember(s[1..], f, b);
      if exists i :: 0 <= i < |s| && f(s[i]) == Some(b) {
        var i :| 0 <= i < |s| && f(s[i]) == Some(b);
        if i > 0 {
          assert s[1..][i - 1] == s[i];
        }
      }
      if exists i :: 0 <= i < |s[1..]| && f(s[1..][i]) == Some(b) {
        var i :| 0 <= i < |s[1..]| && f(s[1..][i]) == Some(b);
        assert s[i + 1] == s[1..][i];
      }
    }
  }

  /** Nothing is dropped exactly when no element is transformed into nil. */
  lemma {:induction false} CompactMapKeepsAll<A, B>(s: seq<A>, f: A -> Option<B>)
    ensures |CompactMap(s, f)| == |s| <==> forall i :: 0 <= i < |s| ==> f(s[i]).Some?
  {
    if s != [] {
      CompactMapKeepsAll(s[1..], f);
      if forall i :: 0 <= i < |s[1..]| ==> f(s[1..][i]).Some? {
        forall i | 0 <= i < |s| ensures f(s[i]).Some? || f(s[0]).None? {
          if i > 0 {
            assert s[i] == s[1..][i - 1];
          }
        }
      } else {
        var i :| 0 <= i < |s[1..]| && !f(s[1..][i]).Some?;
        assert s[i + 1] == s[1..][i];
      }
    }
  }

  /** Transforming a concatenation transforms each part in turn. */
  lemma {:induction false} CompactMapAppend<A, B>(s: seq<A>, t: seq<A>, f: A -> Option<B>)
    ensures CompactMap(s + t, f) == CompactMap(s, f) + CompactMap(t, f)
  {
    if s != [] {
      assert (s + t)[0] == s[0] && (s + t)[1..] == s[1..] + t;
      CompactMapAppend(s[1..], t, f);
    } else {
      assert s + t == t;
    }
  }
}
