/** Orders, the lexicographic order of sequences, and stable sorting as `sort_by` promises it. */
module Ordering {

  /** Any two elements compare, and comparisons chain. */
  ghost predicate Preorder<T(!new)>(le: (T, T) -> bool) {
    (forall x, y :: le(x, y) || le(y, x)) && (forall x, y, z :: le(x, y) && le(y, z) ==> le(x, z))
  }

  /** Moreover, elements that compare equal are equal. */
  ghost predicate TotalOrder<T(!new)>(le: (T, T) -> bool) {
    Preorder(le) && forall x, y :: le(x, y) && le(y, x) ==> x == y
  }

  // ----- Lexicographic order -----

  predicate Lex<T(==)>(le: (T, T) -> bool, a: seq<T>, b: seq<T>) {
    a == [] || (b != [] && le(a[0], b[0]) && (a[0] == b[0] ==> Lex(le, a[1..], b[1..])))
  }

  lemma LexOfHead<T>(le: (T, T) -> bool, x: T, a: seq<T>, y: T, b: seq<T>)
    ensures Lex(le, [x] + a, [y] + b) <==> le(x, y) && (x == y ==> Lex(le, a, b))
  {
    assert ([x] + a)[1..] == a && ([y] + b)[1..] == b;
  }

  lemma {:induction false} LexIsTotal<T(!new)>(le: (T, T) -> bool, a: seq<T>, b: seq<T>)
    requires TotalOrder(le)
    ensures Lex(le, a, b) || Lex(le, b, a)
    ensures Lex(le, a, b) && Lex(le, b, a) ==> a == b
  {
    if a != [] && b != [] {
      LexIsTotal(le, a[1..], b[1..]);
      assert a == [a[0]] + a[1..] && b == [b[0]] + b[1..];
      assert le(a[0], b[0]) && le(b[0], a[0]) ==> a[0] == b[0];
    }
  }

  lemma {:induction false} LexIsTransitive<T(!new)>(le: (T, T) -> bool, a: seq<T>, b: seq<T>, c: seq<T>)
    requires TotalOrder(le) && Lex(le, a, b) && Lex(le, b, c)
    ensures Lex(le, a, c)
  {
    if a != [] {
      assert le(a[0], b[0]) && le(b[0], c[0]);
      if a[0] == c[0] {
        LexIsTransitive(le, a[1..], b[1..], c[1..]);
      }
    }
  }

  // ----- Sorting -----

  predicate Sorted<T>(le: (T, T) -> bool, s: seq<T>) {
    forall i, j :: 0 <= i < j < |s| ==> le(s[i], s[j])
  }

  /** Puts `x` behind everything that is not greater. */
  function InsertSorted<T>(le: (T, T) -> bool, s: seq<T>, x: T): seq<T> {
    if s == [] || le(s[|s| - 1], x) then s + [x] else InsertSorted(le, s[..|s| - 1], x) + [s[|s| - 1]]
  }

  /** `sort_by`: sorts without reordering what compares equal. */
  function SortBy<T>(le: (T, T) -> bool, s: seq<T>): seq<T> {
    if s == [] then [] else InsertSorted(le, SortBy(le, s[..|s| - 1]), s[|s| - 1])
  }

  lemma {:induction false} InsertIntoSorted<T(!new)>(le: (T, T) -> bool, s: seq<T>, x: T)
    requires Preorder(le) && Sorted(le, s)
    ensures Sorted(le, InsertSorted(le, s, x))
    ensures multiset(InsertSorted(le, s, x)) == multiset(s) + multiset{x}
    decreases |s|
  {
    if s != [] {
      var before, last := s[..|s| - 1], s[|s| - 1];
      assert s == before + [last];
      if le(last, x) {
        forall i | 0 <= i < |s| ensures le(s[i], x) {
          assert i < |s| - 1 ==> le(s[i], last);
        }
      } else {
        InsertIntoSorted(le, before, x);
        var r := InsertSorted(le, before, x);
        forall i | 0 <= i < |r| ensures le(r[i], last) {
          assert r[i] in multiset(r);
        }
      }
    }
  }

  lemma {:induction false} SortIsSorted<T(!new)>(le: (T, T) -> bool, s: seq<T>)
    requires Preorder(le)
    ensures Sorted(le, SortBy(le, s)) && multiset(SortBy(le, s)) == multiset(s)
    decreases |s|
  {
    if s != [] {
      var before, last := s[..|s| - 1], s[|s| - 1];
      assert s == before + [last];
      SortIsSorted(le, before);
      InsertIntoSorted(le, SortBy(le, before), last);
    }
  }

  /** The elements that compare equal to `x`, in order. */
  function Peers<T>(le: (T, T) -> bool, s: seq<T>, x: T): seq<T> {
    if s == [] then []
    else
      var last := s[|s| - 1];
      Peers(le, s[..|s| - 1], x) + IfPeer(le, last, x)
  }

  function IfPeer<T>(le: (T, T) -> bool, y: T, x: T): seq<T> {
    if le(y, x) && le(x, y) then [y] else []
  }

  lemma PeersOfAppend<T>(le: (T, T) -> bool, s: seq<T>, y: T, x: T)
    ensures Peers(le, s + [y], x) == Peers(le, s, x) + IfPeer(le, y, x)
  {
  }

  lemma NotBothPeers<T(!new)>(le: (T, T) -> bool, y: T, z: T, x: T)
    requires Preorder(le) && !le(z, y)
    ensures IfPeer(le, y, x) == [] || IfPeer(le, z, x) == []
  {
  }

  lemma {:induction false} PeersAfterInsert<T(!new)>(le: (T, T) -> bool, s: seq<T>, y: T, x: T)
    requires Preorder(le)
    ensures Peers(le, InsertSorted(le, s, y), x) == Peers(le, s, x) + IfPeer(le, y, x)
    decreases |s|
  {
    PeersOfAppend(le, s, y, x);
    if s != [] && !le(s[|s| - 1], y) {
      var before, last := s[..|s| - 1], s[|s| - 1];
      PeersAfterInsert(le, before, y, x);
      PeersOfAppend(le, InsertSorted(le, before, y), last, x);
      NotBothPeers(le, y, last, x);
    }
  }

  /** Sorting is stable: what compares equal keeps its order. */
  lemma {:induction false} SortIsStable<T(!new)>(le: (T, T) -> bool, s: seq<T>, x: T)
    requires Preorder(le)
    ensures Peers(le, SortBy(le, s), x) == Peers(le, s, x)
    decreases |s|
  {
    if s != [] {
      SortIsStable(le, s[..|s| - 1], x);
      PeersAfterInsert(le, SortBy(le, s[..|s| - 1]), s[|s| - 1], x);
    }
  }

  lemma {:induction false} PeersOfConcat<T>(le: (T, T) -> bool, a: seq<T>, b: seq<T>, x: T)
    ensures Peers(le, a + b, x) == Peers(le, a, x) + Peers(le, b, x)
    decreases |b|
  {
    if b == [] {
      assert a + b == a;
    } else {
      assert (a + b)[..|a + b| - 1] == a + b[..|b| - 1];
      PeersOfConcat(le, a, b[..|b| - 1], x);
    }
  }

  /** A finite set has a smallest element. */
  lemma {:induction false} Smallest<T(!new)>(le: (T, T) -> bool, s: set<T>) returns (m: T)
    requires Preorder(le) && s != {}
    ensures m in s && forall x :: x in s ==> le(m, x)
  {
    var some :| some in s;
    m := some;
    assert le(some, some);
    if s - {some} != {} {
      var k := Smallest(le, s - {some});
      m := if le(some, k) then some else k;
    }
    forall x | x in s ensures le(m, x) {
      assert x == some || x in s - {some};
    }
  }

  // ----- Strings -----

  predicate CharLe(a: char, b: char) {
    a <= b
  }

  /** The order of strings: by code point, which is also the order of their UTF-8 bytes. */
  predicate StringLe(a: string, b: string) {
    Lex(CharLe, a, b)
  }

  /** Place `k` is the first one where the two differ, and `a` is smaller there. */
  predicate SmallerAt(a: string, b: string, k: nat) {
    k < |a| && k < |b| && a[..k] == b[..k] && (a[k] as int) < b[k] as int
  }

  lemma SmallerInTheTail(a: string, b: string, k: nat)
    requires a != [] && b != [] && a[0] == b[0]
    ensures SmallerAt(a, b, k) ==> k > 0 && SmallerAt(a[1..], b[1..], k - 1)
    ensures SmallerAt(a[1..], b[1..], k) ==> SmallerAt(a, b, k + 1)
  {
    if SmallerAt(a, b, k) {
      assert k > 0 && a[1..][..k - 1] == a[..k][1..] && b[1..][..k - 1] == b[..k][1..];
    }
    if SmallerAt(a[1..], b[1..], k) {
      assert a[..k + 1] == [a[0]] + a[1..][..k] && b[..k + 1] == [b[0]] + b[1..][..k];
    }
  }

  /** `a` is a prefix of `b`, or smaller at the first place where they differ. */
  lemma {:induction false} StringsAscend(a: string, b: string)
    ensures StringLe(a, b) <==> a <= b || exists k :: SmallerAt(a, b, k)
  {
    if a != [] && b != [] && a[0] == b[0] {
      StringsAscend(a[1..], b[1..]);
      assert a <= b <==> a[1..] <= b[1..];
      if k :| SmallerAt(a, b, k) {
        SmallerInTheTail(a, b, k);
      }
      if k :| SmallerAt(a[1..], b[1..], k) {
        SmallerInTheTail(a, b, k);
      }
    } else if a != [] && b != [] {
      assert SmallerAt(a, b, 0) <==> (a[0] as int) < b[0] as int;
      assert forall k :: k > 0 && SmallerAt(a, b, k) ==> a[..k][0] == a[0] && b[..k][0] == b[0];
    }
  }

  lemma StringsAreOrdered()
    ensures TotalOrder(StringLe)
  {
    assert TotalOrder(CharLe);
    forall a, b
      ensures StringLe(a, b) || StringLe(b, a)
      ensures StringLe(a, b) && StringLe(b, a) ==> a == b
    {
      LexIsTotal(CharLe, a, b);
    }
    forall a, b, c | StringLe(a, b) && StringLe(b, c) ensures StringLe(a, c) {
      LexIsTransitive(CharLe, a, b, c);
    }
  }
}
