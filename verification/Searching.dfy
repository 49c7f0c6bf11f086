/** The first element with a property. */
module Searching {
  import opened Wrappers

  predicate IsFirst<T>(p: T -> bool, s: seq<T>, i: nat) {
    i < |s| && p(s[i]) && forall k :: 0 <= k < i ==> !p(s[k])
  }

  predicate NoneOf<T>(p: T -> bool, s: seq<T>) {
    forall i :: 0 <= i < |s| ==> !p(s[i])
  }

  function FirstIndex<T>(p: T -> bool, s: seq<T>): (r: Option<nat>)
    ensures r.Some? ==> IsFirst(p, s, r.value)
    ensures r.None? ==> NoneOf(p, s)
  {
    if s == [] then None
    else if p(s[0]) then Some(0)
    else
      var rest := FirstIndex(p, s[1..]);
      if rest.None? then None else Some(rest.value + 1)
  }

  lemma FirstIsUnique<T>(p: T -> bool, s: seq<T>, i: nat)
    requires IsFirst(p, s, i)
    ensures FirstIndex(p, s) == Some(i)
  {
  }

  /** The elements before the first one with the property. */
  function Before<T>(p: T -> bool, s: seq<T>): (r: seq<T>)
    ensures r <= s && NoneOf(p, r) && (r != s ==> p(s[|r|]))
  {
    var i := FirstIndex(p, s);
    if i.None? then s else s[..i.value]
  }

  lemma BeforeIsUnique<T>(p: T -> bool, s: seq<T>, i: nat)
    requires i <= |s| && (i < |s| ==> p(s[i])) && forall k :: 0 <= k < i ==> !p(s[k])
    ensures Before(p, s) == s[..i]
  {
  }

  /** What follows an element with the property does not matter. */
  lemma BeforeIgnoresTheRest<T>(p: T -> bool, s: seq<T>, k: nat, others: seq<T>)
    requires k < |s| && p(s[k])
    requires others == [] || p(others[0])
    ensures Before(p, s[..k] + others) == Before(p, s)
  {
  }

  /** The first element stays the first one when something behind it is replaced. */
  lemma FirstWithOtherRest<T>(p: T -> bool, s: seq<T>, i: nat, k: nat, others: seq<T>)
    requires IsFirst(p, s, i) && i < k <= |s|
    ensures IsFirst(p, s[..k] + others, i)
    ensures (s[..k] + others)[i + 1..] == s[i + 1..][..k - i - 1] + others
  {
  }

  /** Continues at the first element with the property, with what follows it. */
  function AtFirst<T, R>(p: T -> bool, at: (T, seq<T>) -> R, s: seq<T>, otherwise: R): R {
    var i := FirstIndex(p, s);
    if i.None? then otherwise else at(s[i.value], s[i.value + 1..])
  }

  lemma AtFirstContinues<T, R>(p: T -> bool, at: (T, seq<T>) -> R, s: seq<T>, otherwise: R, i: nat)
    requires IsFirst(p, s, i)
    ensures AtFirst(p, at, s, otherwise) == at(s[i], s[i + 1..])
  {
  }

  lemma AtFirstIgnoresTheRest<T, R>(
    p: T -> bool, at: (T, seq<T>) -> R, s: seq<T>, otherwise: R, i: nat, k: nat, others: seq<T>)
    requires IsFirst(p, s, i) && i < k <= |s|
    requires at(s[i], s[i + 1..][..k - i - 1] + others) == at(s[i], s[i + 1..])
    ensures AtFirst(p, at, s[..k] + others, otherwise) == AtFirst(p, at, s, otherwise)
  {
    FirstWithOtherRest(p, s, i, k, others);
    AtFirstContinues(p, at, s, otherwise, i);
    AtFirstContinues(p, at, s[..k] + others, otherwise, i);
  }
}
