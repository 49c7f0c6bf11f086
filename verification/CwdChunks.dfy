/** The working-directory tracker over whole runs of observed chunks (app/terminal.rs). */
module CwdChunks {
  import opened Wrappers
  import opened ByteStrings
  import opened PercentCoding
  import opened CwdTracker

  const TRIM_ABOVE: nat := 8192
  const KEEP_CHARS: nat := 4096

  /** The buffer after more data: above the threshold only the last characters are kept. */
  function NextBuffer(buffer: Bytes, data: Bytes): (r: Bytes)
    requires Utf8(buffer) && Utf8(data)
    ensures Utf8(r) && |r| <= 4 * KEEP_CHARS
  {
    Utf8Concat(buffer, data);
    var all := buffer + data;
    if |all| > TRIM_ABOVE then LastChars(all, KEEP_CHARS) else all
  }

  /** All that was seen is kept, or its last 4096 characters once it exceeds 8192 bytes. */
  predicate KeepsTheEnd(buffer: Bytes, data: Bytes, kept: Bytes) {
    var all := buffer + data;
    if |all| <= 8192 then kept == all
    else
      IsSuffix(kept, all) && Utf8(all) && Utf8(kept)
      && CharCount(kept) == if CharCount(all) < 4096 then CharCount(all) else 4096
  }

  lemma NextBufferKeepsTheEnd(buffer: Bytes, data: Bytes)
    requires Utf8(buffer) && Utf8(data)
    ensures KeepsTheEnd(buffer, data, NextBuffer(buffer, data))
  {
    Utf8Concat(buffer, data);
  }

  function NextCwd(lastCwd: Option<Bytes>, buffer: Bytes): Option<Bytes> {
    if LatestCwd(buffer).Some? then LatestCwd(buffer) else lastCwd
  }

  class Tracker {
    var buffer: Bytes
    var lastCwd: Option<Bytes>

    predicate Valid()
      reads this
    {
      Utf8(buffer)
    }

    constructor ()
      ensures Valid() && buffer == [] && lastCwd == None
    {
      buffer, lastCwd := [], None;
    }

    /** `CwdTracker::observe`: reports a directory only when it differs from the last one. */
    method Observe(data: Bytes) returns (r: Option<Bytes>)
      requires Valid() && Utf8(data)
      modifies this
      ensures Valid() && |buffer| <= 16384
      ensures KeepsTheEnd(old(buffer), data, buffer)
      ensures buffer == NextBuffer(old(buffer), data)
      ensures lastCwd == NextCwd(old(lastCwd), buffer)
      ensures r == if lastCwd != old(lastCwd) then lastCwd else None
    {
      NextBufferKeepsTheEnd(buffer, data);
      Utf8Concat(buffer, data);
      buffer := buffer + data;
      if |buffer| > TRIM_ABOVE {
        buffer := LastChars(buffer, KEEP_CHARS);
      }
      var cwd := ExtractLatestCwd(buffer);
      if cwd.None? || lastCwd == cwd {
        return None;
      }
      lastCwd := cwd;
      return cwd;
    }
  }

  // ----- Runs -----

  datatype State = State(buffer: Bytes, lastCwd: Option<Bytes>)

  predicate AllUtf8(chunks: seq<Bytes>) {
    forall i :: 0 <= i < |chunks| ==> Utf8(chunks[i])
  }

  /** The tracker after observing the chunks in order. */
  function Track(chunks: seq<Bytes>): (r: State)
    requires AllUtf8(chunks)
    ensures Utf8(r.buffer) && |r.buffer| <= 16384
  {
    if chunks == [] then State([], None)
    else
      var before := Track(chunks[..|chunks| - 1]);
      var buffer := NextBuffer(before.buffer, chunks[|chunks| - 1]);
      State(buffer, NextCwd(before.lastCwd, buffer))
  }

  function Concat(chunks: seq<Bytes>): Bytes {
    if chunks == [] then [] else Concat(chunks[..|chunks| - 1]) + chunks[|chunks| - 1]
  }

  /** While the text stays below the threshold the buffer is the whole text. */
  lemma {:induction false} BufferIsTheText(chunks: seq<Bytes>)
    requires AllUtf8(chunks) && |Concat(chunks)| <= TRIM_ABOVE
    ensures Track(chunks).buffer == Concat(chunks)
    decreases |chunks|
  {
    if chunks != [] {
      BufferIsTheText(chunks[..|chunks| - 1]);
    }
  }

  predicate Decodable(closed: Closed) {
    PercentDecode(closed.value).Some?
  }

  function ClosedIn(text: Bytes): seq<Closed> {
    Scan(OSC7_PREFIX, text, 0)
  }

  /** No sequence is closed, or the last one decodes, or none does. */
  predicate ChunkingIsIrrelevant(text: Bytes) {
    var closed := ClosedIn(text);
    closed == [] || Decodable(closed[|closed| - 1]) || forall i :: 0 <= i < |closed| ==> !Decodable(closed[i])
  }

  lemma ClosedInPrefix(s: Bytes, t: Bytes)
    ensures ClosedIn(s) <= ClosedIn(s + t)
  {
    ScanExtends(OSC7_PREFIX, s, s + t, 0);
  }

  lemma {:induction false} NothingDecodableNothingTracked(chunks: seq<Bytes>)
    requires AllUtf8(chunks) && |Concat(chunks)| <= TRIM_ABOVE
    requires forall i :: 0 <= i < |ClosedIn(Concat(chunks))| ==> !Decodable(ClosedIn(Concat(chunks))[i])
    ensures Track(chunks).lastCwd == None
    decreases |chunks|
  {
    if chunks != [] {
      var before, last := chunks[..|chunks| - 1], chunks[|chunks| - 1];
      ClosedInPrefix(Concat(before), last);
      forall i | 0 <= i < |ClosedIn(Concat(before))| ensures !Decodable(ClosedIn(Concat(before))[i]) {
        assert ClosedIn(Concat(before))[i] == ClosedIn(Concat(chunks))[i];
      }
      NothingDecodableNothingTracked(before);
      BufferIsTheText(chunks);
      LastDecides(Concat(chunks));
    }
  }

  lemma LastDecides(text: Bytes)
    ensures LatestCwd(text).Some? <==> ClosedIn(text) != [] && Decodable(ClosedIn(text)[|ClosedIn(text)| - 1])
  {
  }

  lemma {:induction false} IrrelevantChunking(chunks: seq<Bytes>)
    requires AllUtf8(chunks) && |Concat(chunks)| <= TRIM_ABOVE
    requires ChunkingIsIrrelevant(Concat(chunks))
    ensures Track(chunks).lastCwd == LatestCwd(Concat(chunks))
  {
    var text := Concat(chunks);
    LastDecides(text);
    if ClosedIn(text) != [] && Decodable(ClosedIn(text)[|ClosedIn(text)| - 1]) {
      BufferIsTheText(chunks);
      if chunks == [] {
        NothingDecodableNothingTracked(chunks);
      }
    } else {
      NothingDecodableNothingTracked(chunks);
    }
  }

  lemma {:induction false} OneMoreChunk(chunks: seq<Bytes>, data: Bytes)
    requires AllUtf8(chunks) && Utf8(data) && |Concat(chunks) + data| <= TRIM_ABOVE
    ensures AllUtf8(chunks + [data]) && Concat(chunks + [data]) == Concat(chunks) + data
    ensures Track(chunks + [data]).lastCwd == NextCwd(Track(chunks).lastCwd, Concat(chunks) + data)
  {
    var all := chunks + [data];
    assert all[..|all| - 1] == chunks && all[|all| - 1] == data;
    BufferIsTheText(all);
  }

  lemma TwoChunks(a: Bytes, b: Bytes)
    requires Utf8(a) && Utf8(b) && |a + b| <= TRIM_ABOVE
    ensures AllUtf8([a] + [b]) && Concat([a] + [b]) == a + b
    ensures Track([a] + [b]).lastCwd == NextCwd(NextCwd(None, a), a + b)
  {
    OneMoreChunk([], a);
    assert [] + [a] == [a] && [] + a == a;
    OneMoreChunk([a], b);
  }

  /** Two chunks, cut after a decodable sequence that is not the last, remember a directory the whole text forgets. */
  lemma {:induction false} ChunkingMatters(text: Bytes) returns (chunks: seq<Bytes>)
    requires Utf8(text) && |text| <= TRIM_ABOVE && !ChunkingIsIrrelevant(text)
    ensures AllUtf8(chunks) && Concat(chunks) == text && Track(chunks).lastCwd != LatestCwd(text)
  {
    var a, b := CutAtDecodable(text);
    TwoChunks(a, b);
    LastDecides(text);
    chunks := [a] + [b];
  }

  lemma {:induction false} CutAtDecodable(text: Bytes) returns (a: Bytes, b: Bytes)
    requires Utf8(text) && !ChunkingIsIrrelevant(text)
    ensures a + b == text && Utf8(a) && Utf8(b) && LatestCwd(a).Some?
  {
    var closed := ClosedIn(text);
    var k :| 0 <= k < |closed| && Decodable(closed[k]);
    a := CutAfterClosed(OSC7_PREFIX, text, closed, k);
    b := text[|a|..];
    CutAfterAscii(text, |a|);
    assert text[..|a|] == a;
    LastDecides(a);
    assert ClosedIn(a)[k] == closed[k];
  }

  /**
   For a text below the trim threshold, the tracked directory is the same for every way of cutting
   the text into chunks exactly when no sequence is closed, the last one decodes, or none does.
   */
  lemma {:induction false} ChunkIndependenceIff(text: Bytes)
    requires Utf8(text) && |text| <= TRIM_ABOVE
    ensures ChunkingIsIrrelevant(text) <==>
            forall chunks :: AllUtf8(chunks) && Concat(chunks) == text ==> Track(chunks).lastCwd == LatestCwd(text)
  {
    if ChunkingIsIrrelevant(text) {
      forall chunks | AllUtf8(chunks) && Concat(chunks) == text ensures Track(chunks).lastCwd == LatestCwd(text) {
        IrrelevantChunking(chunks);
      }
    } else {
      var chunks := ChunkingMatters(text);
      assert AllUtf8(chunks) && Concat(chunks) == text && Track(chunks).lastCwd != LatestCwd(text);
    }
  }

  // ----- A text whose tracked directory depends on its chunks -----

  /** One sequence, closed by BEL. */
  function Sequence(intro: Introducer, value: Bytes): Bytes {
    intro + value + [BEL]
  }

  predicate NoControls(value: Bytes) {
    ESC !in value && BEL !in value
  }

  lemma MatchesFirst(s: Bytes, i: nat, needle: Bytes)
    requires needle != []
    ensures MatchAt(s, i, needle) ==> i < |s| && s[i] == needle[0]
  {
  }

  lemma ValueEndsAtBel(s: Bytes, from: nat, e: nat)
    requires from <= e < |s| && s[e] == BEL && forall k :: from <= k < e ==> s[k] != BEL && s[k] != ESC
    ensures ValueEnd(s, from) == Some(e)
  {
    assert MatchAt(s, e, [BEL]);
    forall k | from <= k < e ensures !TerminatorAt(s, k) {
      MatchesFirst(s, k, [BEL]);
      MatchesFirst(s, k, ST);
    }
    ValueEndIsUnique(s, from, e);
  }

  lemma IntroducerFound(intro: Introducer, s: Bytes, start: nat, p: nat)
    requires intro[0] == ESC && MatchAt(s, p, intro)
    requires start == p || (start + 1 == p && s[start] == BEL)
    ensures Find(s, start, intro) == Some(p)
  {
  }

  /** A sequence stands at `p` of `s`. */
  predicate SequenceAt(intro: Introducer, s: Bytes, p: nat, value: Bytes) {
    var e := p + |intro| + |value|;
    e < |s| && MatchAt(s, p, intro) && s[p + |intro|..e] == value && s[e] == BEL
  }

  lemma SequenceIsClosed(intro: Introducer, s: Bytes, start: nat, p: nat, value: Bytes)
    requires intro[0] == ESC && NoControls(value) && SequenceAt(intro, s, p, value)
    requires start == p || (start + 1 == p && s[start] == BEL)
    ensures NextClosed(intro, s, start) == Some(Closed(value, p + |intro| + |value|))
  {
    var from, e := p + |intro|, p + |intro| + |value|;
    IntroducerFound(intro, s, start, p);
    forall k | from <= k < e ensures s[k] != BEL && s[k] != ESC {
      assert s[from..e][k - from] == s[k];
    }
    ValueEndsAtBel(s, from, e);
    NextClosedAt(intro, s, start, p, e);
  }

  lemma TwoSequences(intro: Introducer, v: Bytes, u: Bytes)
    ensures var s := Sequence(intro, v) + Sequence(intro, u);
            SequenceAt(intro, s, 0, v) && SequenceAt(intro, s, |Sequence(intro, v)|, u)
            && s[|Sequence(intro, v)| - 1] == BEL
  {
  }

  lemma NothingFitsAtTheEnd(intro: Introducer, s: Bytes)
    requires s != []
    ensures Scan(intro, s, |s| - 1) == []
  {
  }

  lemma ScanStep(intro: Introducer, s: Bytes, start: nat, c: Closed)
    requires NextClosed(intro, s, start) == Some(c)
    ensures Scan(intro, s, start) == [c] + Scan(intro, s, c.end)
  {
  }

  lemma ScanOfTwo(intro: Introducer, s: Bytes, v: Bytes, u: Bytes, p: nat)
    requires intro[0] == ESC && NoControls(v) && NoControls(u)
    requires p == |intro| + |v| + 1 && |s| == p + |intro| + |u| + 1
    requires SequenceAt(intro, s, 0, v) && SequenceAt(intro, s, p, u) && s[p - 1] == BEL
    ensures Scan(intro, s, 0) == [Closed(v, p - 1)] + [Closed(u, |s| - 1)]
  {
    SequenceIsClosed(intro, s, 0, 0, v);
    SequenceIsClosed(intro, s, p - 1, p, u);
    ScanStep(intro, s, 0, Closed(v, p - 1));
    ScanStep(intro, s, p - 1, Closed(u, |s| - 1));
    NothingFitsAtTheEnd(intro, s);
  }

  lemma {:induction false} AsciiIsUtf8(s: Bytes)
    requires forall i :: 0 <= i < |s| ==> s[i] <= 0x7F
    ensures Utf8(s)
  {
    if s != [] {
      AsciiIsUtf8(s[1..]);
    }
  }

  /** The directory `a`, then a closed sequence whose value is a lone percent sign. */
  const FORGETFUL: Bytes := Sequence(OSC7_PREFIX, [0x61]) + Sequence(OSC7_PREFIX, [PERCENT])

  lemma LoneLetterDecodes()
    ensures PercentDecode([0x61]) == Some([0x61])
  {
    var v: Bytes := [0x61];
    var rest: Bytes := [];
    assert v[1..] == rest && DecodeBytes(rest) == Some([]);
    assert DecodeBytes(v) == Some([v[0]] + rest) && [v[0]] + rest == v;
    AsciiIsUtf8(v);
  }

  lemma LonePercentDoesNotDecode()
    ensures PercentDecode([PERCENT]).None?
  {
  }

  lemma ClosedInForgetful()
    ensures ClosedIn(FORGETFUL) == [Closed([0x61], 17)] + [Closed([PERCENT], 35)]
  {
    TwoSequences(OSC7_PREFIX, [0x61], [PERCENT]);
    ScanOfTwo(OSC7_PREFIX, FORGETFUL, [0x61], [PERCENT], 18);
  }

  /** A text whose closed sequences are a decodable one and then one that is not. */
  lemma EarlierDecodes(text: Bytes, first: Closed, second: Closed)
    requires ClosedIn(text) == [first] + [second] && Decodable(first) && !Decodable(second)
    ensures !ChunkingIsIrrelevant(text)
  {
    var closed := ClosedIn(text);
    assert closed[0] == first && closed[|closed| - 1] == second;
  }

  lemma ForgetfulIsText()
    ensures Utf8(FORGETFUL) && |FORGETFUL| == 36
  {
    AsciiIsUtf8(FORGETFUL);
  }

  /** Observed in two chunks this text leaves the tracker in `a`, observed at once it leaves it nowhere. */
  lemma {:induction false} ForgetfulText() returns (chunks: seq<Bytes>)
    ensures Utf8(FORGETFUL) && |FORGETFUL| <= TRIM_ABOVE && !ChunkingIsIrrelevant(FORGETFUL)
    ensures AllUtf8(chunks) && Concat(chunks) == FORGETFUL && Track(chunks).lastCwd != LatestCwd(FORGETFUL)
  {
    ForgetfulIsText();
    ClosedInForgetful();
    LoneLetterDecodes();
    LonePercentDoesNotDecode();
    EarlierDecodes(FORGETFUL, Closed([0x61], 17), Closed([PERCENT], 35));
    chunks := ChunkingMatters(FORGETFUL);
  }
}
