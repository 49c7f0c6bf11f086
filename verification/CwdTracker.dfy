/** Tracking a terminal's working directory through OSC 7 sequences (app/terminal.rs). */
module CwdTracker {
  import opened Wrappers
  import opened ByteStrings
  import opened PercentCoding

  const ESC: Byte := 0x1B
  const BEL: Byte := 0x07
  const BACKSLASH: Byte := 0x5C

  /** `ESC ]7;file://foco/` */
  const OSC7_PREFIX: Introducer := [
    ESC, 0x5D, 0x37, 0x3B, 0x66, 0x69, 0x6C, 0x65, 0x3A, 0x2F, 0x2F, 0x66, 0x6F, 0x63, 0x6F, 0x2F]

  /** What opens a sequence; all that matters is that it is longer than a terminator. */
  type Introducer = s: Bytes | |s| >= 3 witness [0, 0, 0]

  const ST: Bytes := [ESC, BACKSLASH]

  const OSC7_TEXT := "]7;file://foco/"

  /** The bytes of the introducer and of the two terminators. */
  lemma SequenceBytes()
    ensures OSC7_PREFIX[0] == 27 && |OSC7_PREFIX| == |OSC7_TEXT| + 1
    ensures forall i :: 0 <= i < |OSC7_TEXT| ==> OSC7_PREFIX[i + 1] as int == OSC7_TEXT[i] as int
    ensures BEL == 7 && ST == [27, 92]
  {
  }

  // ----- Scanning -----

  predicate MatchAt(s: Bytes, i: nat, needle: Bytes) {
    i + |needle| <= |s| && s[i..i + |needle|] == needle
  }

  /** The first occurrence of `needle` at or after `from`. */
  function Find(s: Bytes, from: nat, needle: Bytes): (r: Option<nat>)
    ensures r.Some? ==> from <= r.value <= |s| - |needle|
    decreases |s| - from
  {
    if from + |needle| > |s| then None
    else if MatchAt(s, from, needle) then Some(from)
    else Find(s, from + 1, needle)
  }

  lemma {:induction false} FindMeaning(s: Bytes, from: nat, needle: Bytes)
    ensures var r := Find(s, from, needle);
            (r.Some? ==> MatchAt(s, r.value, needle) && forall k :: from <= k < r.value ==> !MatchAt(s, k, needle))
            && (r.None? ==> forall k :: from <= k ==> !MatchAt(s, k, needle))
    decreases |s| - from
  {
    if from + |needle| <= |s| && !MatchAt(s, from, needle) {
      FindMeaning(s, from + 1, needle);
    }
  }

  /** Where the value that starts at `from` ends: at the nearer of BEL and ST. */
  function ValueEnd(s: Bytes, from: nat): Option<nat> {
    var bel, st := Find(s, from, [BEL]), Find(s, from, ST);
    if bel.Some? && st.Some? then (if bel.value <= st.value then bel else st)
    else if bel.Some? then bel
    else st
  }

  predicate TerminatorAt(s: Bytes, i: nat) {
    MatchAt(s, i, [BEL]) || MatchAt(s, i, ST)
  }

  predicate IsValueEnd(s: Bytes, from: nat, e: nat) {
    from <= e && TerminatorAt(s, e) && forall k :: from <= k < e ==> !TerminatorAt(s, k)
  }

  lemma ValueEndIsFirst(s: Bytes, from: nat)
    ensures ValueEnd(s, from).Some? ==> IsValueEnd(s, from, ValueEnd(s, from).value) && ValueEnd(s, from).value < |s|
    ensures ValueEnd(s, from).None? ==> forall k :: from <= k ==> !TerminatorAt(s, k)
  {
    FindMeaning(s, from, [BEL]);
    FindMeaning(s, from, ST);
  }

  lemma ValueEndIsUnique(s: Bytes, from: nat, e: nat)
    requires IsValueEnd(s, from, e)
    ensures ValueEnd(s, from) == Some(e)
  {
    ValueEndIsFirst(s, from);
    assert !(ValueEnd(s, from).value < e);
  }

  /** A closed sequence: its value and the position of its terminator. */
  datatype Closed = Closed(value: Bytes, end: nat)

  /** The next closed sequence, if there is one. */
  function NextClosed(intro: Introducer, s: Bytes, start: nat): (r: Option<Closed>)
    ensures r.Some? ==> start < r.value.end < |s|
  {
    var p := Find(s, start, intro);
    if p.None? then None
    else
      var valueStart := p.value + |intro|;
      var e := ValueEnd(s, valueStart);
      if e.None? then None else Some(Closed(s[valueStart..e.value], e.value))
  }

  /** How the next closed sequence at or after a position is found. */
  type Finder = (Bytes, nat) -> Option<Closed>

  /** The closed sequences one after the other, each search starting at the previous terminator. */
  function Chain(next: Finder, s: Bytes, start: nat): seq<Closed>
    decreases |s| - start
  {
    var found := next(s, start);
    if found.None? || !(start < found.value.end < |s|) then [] else [found.value] + Chain(next, s, found.value.end)
  }

  function FinderFor(intro: Introducer): Finder {
    (s: Bytes, start: nat) => NextClosed(intro, s, start)
  }

  /** The sequences closed in `s` from `start` on. */
  function Scan(intro: Introducer, s: Bytes, start: nat): seq<Closed> {
    Chain(FinderFor(intro), s, start)
  }

  /** `extract_latest_cwd`. */
  function LatestCwd(s: Bytes): Option<Bytes> {
    var closed := Scan(OSC7_PREFIX, s, 0);
    if closed == [] then None else PercentDecode(closed[|closed| - 1].value)
  }

  /** What the loop ends with when it stands at `start` having last seen `latest`. */
  function LatestFrom(intro: Introducer, s: Bytes, start: nat, latest: Option<Bytes>): Option<Bytes>
    decreases |s| - start
  {
    var next := NextClosed(intro, s, start);
    if next.None? then latest else LatestFrom(intro, s, next.value.end, PercentDecode(next.value.value))
  }

  lemma {:induction false} LatestIsLastClosed(intro: Introducer, s: Bytes, start: nat, latest: Option<Bytes>)
    ensures var closed := Scan(intro, s, start);
            LatestFrom(intro, s, start, latest)
            == if closed == [] then latest else PercentDecode(closed[|closed| - 1].value)
    decreases |s| - start
  {
    var next := NextClosed(intro, s, start);
    if next.Some? {
      LatestIsLastClosed(intro, s, next.value.end, PercentDecode(next.value.value));
    }
  }

  /** The scanning loop. */
  method ExtractLatestCwd(s: Bytes) returns (latest: Option<Bytes>)
    ensures latest == LatestCwd(s)
  {
    var searchStart: nat := 0;
    latest := None;
    LatestIsLastClosed(OSC7_PREFIX, s, 0, None);
    while true
      invariant LatestFrom(OSC7_PREFIX, s, searchStart, latest) == LatestFrom(OSC7_PREFIX, s, 0, None)
      decreases |s| - searchStart
    {
      var next := NextClosed(OSC7_PREFIX, s, searchStart);
      if next.None? {
        break;
      }
      latest := DecodeLoop(next.value.value);
      searchStart := next.value.end;
    }
  }

  // ----- Closed sequences stay closed -----

  lemma SliceOfPrefix(t: Bytes, s: Bytes, from: nat, e: nat)
    requires t <= s && from <= e <= |t|
    ensures t[from..e] == s[from..e]
  {
  }

  lemma MatchInPrefix(t: Bytes, s: Bytes, i: nat, needle: Bytes)
    requires t <= s
    ensures MatchAt(t, i, needle) <==> MatchAt(s, i, needle) && i + |needle| <= |t|
  {
  }

  /** What is found in a prefix is found in the whole, and conversely when it lies in the prefix. */
  lemma {:induction false} FindInPrefix(t: Bytes, s: Bytes, from: nat, needle: Bytes)
    requires t <= s
    ensures Find(t, from, needle).Some? ==> Find(s, from, needle) == Find(t, from, needle)
    ensures Find(s, from, needle).Some? && Find(s, from, needle).value + |needle| <= |t| ==>
              Find(t, from, needle) == Find(s, from, needle)
    decreases |s| - from
  {
    if from + |needle| <= |t| {
      MatchInPrefix(t, s, from, needle);
      if !MatchAt(s, from, needle) {
        FindInPrefix(t, s, from + 1, needle);
      }
    }
  }

  function TerminatorLength(s: Bytes, e: nat): nat {
    if MatchAt(s, e, [BEL]) then 1 else 2
  }

  lemma TerminatorInPrefix(t: Bytes, s: Bytes, k: nat)
    requires t <= s
    ensures TerminatorAt(t, k) ==> TerminatorAt(s, k)
    ensures TerminatorAt(s, k) && k + TerminatorLength(s, k) <= |t| ==> TerminatorAt(t, k)
  {
  }

  /** The value end of a sequence closed within a prefix. */
  lemma ValueEndInPrefix(t: Bytes, s: Bytes, from: nat, e: nat)
    requires t <= s && IsValueEnd(s, from, e) && e + TerminatorLength(s, e) <= |t|
    ensures ValueEnd(t, from) == Some(e) && ValueEnd(s, from) == Some(e)
  {
    forall k: nat ensures TerminatorAt(t, k) ==> TerminatorAt(s, k) {
      TerminatorInPrefix(t, s, k);
    }
    TerminatorInPrefix(t, s, e);
    ValueEndIsUnique(s, from, e);
    ValueEndIsUnique(t, from, e);
  }

  lemma ValueEndExtends(t: Bytes, s: Bytes, from: nat)
    requires t <= s && ValueEnd(t, from).Some?
    ensures ValueEnd(s, from) == ValueEnd(t, from)
  {
    var e := ValueEnd(t, from).value;
    ValueEndIsFirst(t, from);
    TerminatorInPrefix(t, s, e);
    forall k: nat | from <= k < e ensures !TerminatorAt(s, k) {
      TerminatorInPrefix(t, s, k);
    }
    ValueEndIsUnique(s, from, e);
  }

  /** A sequence read off its position: introducer at `p`, value end at `e`. */
  lemma NextClosedAt(intro: Introducer, s: Bytes, start: nat, p: nat, e: nat)
    requires Find(s, start, intro) == Some(p) && ValueEnd(s, p + |intro|) == Some(e)
    ensures p + |intro| <= e < |s| && NextClosed(intro, s, start) == Some(Closed(s[p + |intro|..e], e))
  {
  }

  lemma NextClosedExtends(intro: Introducer, t: Bytes, s: Bytes, start: nat)
    requires t <= s && NextClosed(intro, t, start).Some?
    ensures NextClosed(intro, s, start) == NextClosed(intro, t, start)
  {
    var p := Find(t, start, intro).value;
    var e := ValueEnd(t, p + |intro|).value;
    NextClosedAt(intro, t, start, p, e);
    FindInPrefix(t, s, start, intro);
    ValueEndExtends(t, s, p + |intro|);
    NextClosedAt(intro, s, start, p, e);
    SliceOfPrefix(t, s, p + |intro|, e);
  }

  /** Prefix stability: sequences closed in an input keep their place and value in every extension of it. */
  lemma {:induction false} ScanExtends(intro: Introducer, t: Bytes, s: Bytes, start: nat)
    requires t <= s
    ensures Scan(intro, t, start) <= Scan(intro, s, start)
    decreases |t| - start
  {
    var next := NextClosed(intro, t, start);
    if next.Some? {
      NextClosedExtends(intro, t, s, start);
      ScanExtends(intro, t, s, next.value.end);
    }
  }

  lemma NextClosedInPrefix(intro: Introducer, t: Bytes, s: Bytes, start: nat)
    requires t <= s && NextClosed(intro, s, start).Some?
    requires var e := NextClosed(intro, s, start).value.end; e + TerminatorLength(s, e) <= |t|
    ensures NextClosed(intro, t, start) == NextClosed(intro, s, start)
  {
    var p := Find(s, start, intro).value;
    var e := ValueEnd(s, p + |intro|).value;
    NextClosedAt(intro, s, start, p, e);
    FindInPrefix(t, s, start, intro);
    ValueEndIsFirst(s, p + |intro|);
    ValueEndInPrefix(t, s, p + |intro|, e);
    NextClosedAt(intro, t, start, p, e);
    SliceOfPrefix(t, s, p + |intro|, e);
  }

  /** A terminator ends in an ASCII byte. */
  lemma TerminatorIsAscii(s: Bytes, e: nat)
    requires TerminatorAt(s, e)
    ensures e + TerminatorLength(s, e) <= |s| && s[e + TerminatorLength(s, e) - 1] <= 0x7F
  {
  }

  // ----- Cutting an input after a closed sequence -----

  /** Where the terminator of a closed sequence is over. */
  function Past(s: Bytes, c: Closed): nat {
    c.end + TerminatorLength(s, c.end)
  }

  /** A sequence found in `s` is found in every prefix of `s` that holds its terminator. */
  ghost predicate StableIn(next: Finder, s: Bytes) {
    forall t: Bytes, i: nat :: t <= s && next(s, i).Some? && Past(s, next(s, i).value) <= |t| ==>
      next(t, i) == next(s, i)
  }

  /** No sequence is closed within the last two bytes. */
  ghost predicate QuietAtTheEnd(next: Finder) {
    forall t: Bytes, i: nat :: i + 2 >= |t| ==> next(t, i).None?
  }

  lemma {:induction false} CutChain(next: Finder, s: Bytes, start: nat, whole: seq<Closed>, k: nat, t: Bytes)
    requires StableIn(next, s) && QuietAtTheEnd(next)
    requires whole == Chain(next, s, start) && k < |whole|
    requires t <= s && |t| == Past(s, whole[k])
    ensures Chain(next, t, start) == whole[..k + 1]
    decreases k
  {
    var first, rest := whole[0], whole[1..];
    assert next(s, start) == Some(first) && rest == Chain(next, s, first.end);
    if k == 0 {
      assert next(t, start) == Some(first);
      assert next(t, first.end).None?;
      assert whole[..1] == [first];
    } else {
      var i := ChainFinds(next, s, first.end, rest, k - 1);
      assert next(t, start) == Some(first);
      CutChain(next, s, first.end, rest, k - 1, t);
      assert whole[..k + 1] == [first] + rest[..k];
    }
  }

  lemma {:induction false} ChainFinds(next: Finder, s: Bytes, start: nat, whole: seq<Closed>, k: nat) returns (i: nat)
    requires whole == Chain(next, s, start) && k < |whole|
    ensures next(s, i) == Some(whole[k]) && start <= i < whole[k].end
    decreases k
  {
    if k == 0 {
      i := start;
    } else {
      i := ChainFinds(next, s, whole[0].end, whole[1..], k - 1);
    }
  }

  lemma {:induction false} FinderIsStable(intro: Introducer, s: Bytes)
    ensures StableIn(FinderFor(intro), s) && QuietAtTheEnd(FinderFor(intro))
  {
    forall t: Bytes, i: nat | t <= s && NextClosed(intro, s, i).Some? && Past(s, NextClosed(intro, s, i).value) <= |t|
      ensures NextClosed(intro, t, i) == NextClosed(intro, s, i)
    {
      NextClosedInPrefix(intro, t, s, i);
    }
  }

  lemma ClosedEndsInTerminator(intro: Introducer, s: Bytes, start: nat)
    requires NextClosed(intro, s, start).Some?
    ensures TerminatorAt(s, NextClosed(intro, s, start).value.end)
  {
    ValueEndIsFirst(s, Find(s, start, intro).value + |intro|);
  }

  /** Cutting the input just after its `k`-th closed sequence leaves exactly the first `k` + 1. */
  lemma CutAfterClosed(intro: Introducer, s: Bytes, whole: seq<Closed>, k: nat) returns (t: Bytes)
    requires whole == Scan(intro, s, 0) && k < |whole|
    ensures t <= s && 0 < |t| && t[|t| - 1] <= 0x7F
    ensures Scan(intro, t, 0) == whole[..k + 1]
  {
    var i := ChainFinds(FinderFor(intro), s, 0, whole, k);
    ClosedEndsInTerminator(intro, s, i);
    TerminatorIsAscii(s, whole[k].end);
    t := s[..Past(s, whole[k])];
    FinderIsStable(intro, s);
    CutChain(FinderFor(intro), s, 0, whole, k, t);
  }
}
