/** Sequences read as bags: what permutations keep. */
module Bags {

  function RemoveAt<T>(s: seq<T>, k: nat): (r: seq<T>)
    requires k < |s|
    ensures |r| == |s| - 1
  {
    s[..k] + s[k + 1..]
  }

  lemma BagOfRemoved<T>(s: seq<T>, k: nat)
    requires k < |s|
    ensures multiset(s) == multiset(RemoveAt(s, k)) + multiset{s[k]}
  {
    assert s == s[..k] + [s[k]] + s[k + 1..];
  }

  lemma BagOfTail<T>(s: seq<T>)
    requires s != []
    ensures multiset(s[1..]) == multiset(s) - multiset{s[0]}
  {
    assert s == [s[0]] + s[1..];
  }

  /** Removing the same element keeps two sequences permutations of each other. */
  lemma RemoveFromBoth<T>(s: seq<T>, t: seq<T>) returns (k: nat)
    requires s != [] && multiset(s) == multiset(t)
    ensures k < |t| && t[k] == s[0] && multiset(s[1..]) == multiset(RemoveAt(t, k))
  {
    assert s[0] in multiset(t);
    k :| 0 <= k < |t| && t[k] == s[0];
    BagOfRemoved(t, k);
    BagOfTail(s);
    assert multiset(RemoveAt(t, k)) == multiset(t) - multiset{s[0]};
  }

  function MapAll<T, U>(f: T -> U, s: seq<T>): (r: seq<U>)
    ensures |r| == |s|
    ensures forall i :: 0 <= i < |s| ==> r[i] == f(s[i])
  {
    seq(|s|, i requires 0 <= i < |s| => f(s[i]))
  }

  lemma MapOfConcat<T, U>(f: T -> U, a: seq<T>, b: seq<T>)
    ensures MapAll(f, a + b) == MapAll(f, a) + MapAll(f, b)
  {
  }

  lemma MapOfRemoved<T, U>(f: T -> U, s: seq<T>, k: nat)
    requires k < |s|
    ensures multiset(MapAll(f, s)) == multiset(MapAll(f, RemoveAt(s, k))) + multiset{f(s[k])}
  {
    BagOfRemoved(MapAll(f, s), k);
    assert RemoveAt(MapAll(f, s), k) == MapAll(f, RemoveAt(s, k));
  }

  /** Mapping keeps permutations. */
  lemma {:induction false} MapBag<T, U>(f: T -> U, s: seq<T>, t: seq<T>)
    requires multiset(s) == multiset(t)
    ensures multiset(MapAll(f, s)) == multiset(MapAll(f, t))
    decreases |s|
  {
    if s == [] {
      assert |multiset(t)| == |t|;
    } else {
      var k := RemoveFromBoth(s, t);
      MapBag(f, s[1..], RemoveAt(t, k));
      MapOfRemoved(f, t, k);
      MapOfRemoved(f, s, 0);
      assert RemoveAt(s, 0) == s[1..];
    }
  }

  lemma TwoOccurrences<T>(s: seq<T>, a: T) returns (i: nat, j: nat)
    requires multiset(s)[a] >= 2
    ensures i < j < |s| && s[i] == a && s[j] == a
  {
    assert a in s;
    var k :| 0 <= k < |s| && s[k] == a;
    BagOfRemoved(s, k);
    var rest := RemoveAt(s, k);
    assert a in rest;
    var m :| 0 <= m < |rest| && rest[m] == a;
    if m < k {
      i, j := m, k;
    } else {
      i, j := k, m + 1;
    }
  }

  lemma RepeatedElement<T>(s: seq<T>, i: nat, j: nat)
    requires i < j < |s| && s[i] == s[j]
    ensures multiset(s)[s[i]] >= 2
  {
    BagOfRemoved(s, i);
    assert RemoveAt(s, i)[j - 1] == s[i];
    assert s[i] in multiset(RemoveAt(s, i));
  }

  predicate Distinct<T(==)>(s: seq<T>) {
    forall i, j :: 0 <= i < j < |s| ==> s[i] != s[j]
  }

  predicate DistinctBy<T, K(==)>(key: T -> K, s: seq<T>) {
    forall i, j :: 0 <= i < j < |s| ==> key(s[i]) != key(s[j])
  }

  /** Permuting keeps keys distinct. */
  lemma PermutationKeepsDistinct<T, K>(key: T -> K, s: seq<T>, t: seq<T>)
    requires DistinctBy(key, s) && multiset(s) == multiset(t)
    ensures DistinctBy(key, t)
  {
    forall i, j | 0 <= i < j < |t| ensures key(t[i]) != key(t[j]) {
      assert t[i] in multiset(s) && t[j] in multiset(s);
      var x :| 0 <= x < |s| && s[x] == t[i];
      var y :| 0 <= y < |s| && s[y] == t[j];
      if t[i] == t[j] {
        RepeatedElement(t, i, j);
        var k, l := TwoOccurrences(s, t[i]);
        assert false;
      } else {
        assert if x < y then key(s[x]) != key(s[y]) else key(s[y]) != key(s[x]);
      }
    }
  }
}
