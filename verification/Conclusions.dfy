/** Truncation of earlier phase conclusions to the prompt limit (app/plan_runtime.rs). */
module Conclusions {
  import opened Text

  const MAX_CHARS: nat := 12_000

  function Decimal(n: nat): (r: string)
    ensures |r| >= 1
  {
    if n < 10 then [('0' as int + n) as char] else Decimal(n / 10) + Decimal(n % 10)
  }

  const NOTICE_MIDDLE := " previous phase "
  const NOTICE_END := " omitted because the phase prompt context limit is 12000 chars]"

  /** `previous_phase_conclusions_omission_notice`. */
  function Notice(omitted: nat): string {
    "[" + Decimal(omitted) + NOTICE_MIDDLE + (if omitted == 1 then "conclusion" else "conclusions") + NOTICE_END
  }

  /** The number that a string of decimal digits stands for. */
  function ValueOf(digits: string): nat {
    if digits == "" then 0
    else
      var last := digits[|digits| - 1];
      10 * ValueOf(digits[..|digits| - 1]) + if '0' <= last <= '9' then last as int - '0' as int else 0
  }

  /** A numeral consists of digits, stands for its number, and does not begin with a zero unless it is zero. */
  lemma {:induction false} DecimalIsNumeral(n: nat)
    ensures ValueOf(Decimal(n)) == n
    ensures forall i :: 0 <= i < |Decimal(n)| ==> '0' <= Decimal(n)[i] <= '9'
    ensures n > 0 ==> Decimal(n)[0] != '0'
  {
    if n >= 10 {
      DecimalIsNumeral(n / 10);
      DecimalIsNumeral(n % 10);
      var front, digit := Decimal(n / 10), Decimal(n % 10);
      assert |digit| == 1 && Decimal(n)[..|front|] == front && Decimal(n)[|front|] == digit[0];
    } else {
      assert Decimal(n)[..0] == "";
    }
  }

  const SEPARATOR := "\n\n"

  function JoinedLength(blocks: seq<string>): nat {
    if blocks == [] then 0 else |blocks[0]| + (if |blocks| == 1 then 0 else 2 + JoinedLength(blocks[1..]))
  }

  lemma {:induction false} JoinedLengthIsLength(blocks: seq<string>)
    ensures JoinedLength(blocks) == |Join(blocks, SEPARATOR)|
  {
    if |blocks| > 1 {
      JoinedLengthIsLength(blocks[1..]);
    }
  }

  /** The notice followed by the blocks from `start` on; the notice alone when nothing is left. */
  function Candidate(blocks: seq<string>, start: nat): string
    requires start <= |blocks|
  {
    if start == |blocks| then Notice(start) else Notice(start) + SEPARATOR + Join(blocks[start..], SEPARATOR)
  }

  /** The texts and the limit. */
  lemma CandidateText(blocks: seq<string>, start: nat)
    requires start <= |blocks|
    ensures MAX_CHARS == 12_000 && SEPARATOR == "\n\n"
    ensures Notice(start)
            == "[" + Decimal(start) + " previous phase " + (if start == 1 then "conclusion" else "conclusions")
               + " omitted because the phase prompt context limit is 12000 chars]"
    ensures Candidate(blocks, start)
            == Notice(start) + if start == |blocks| then "" else "\n\n" + Join(blocks[start..], "\n\n")
  {
  }

  lemma {:induction false} DecimalGrowsSlowly(n: nat)
    ensures |Decimal(n)| <= |Decimal(n + 1)| <= |Decimal(n)| + 1
  {
    if n >= 10 {
      if (n + 1) % 10 == 0 {
        DecimalGrowsSlowly(n / 10);
        assert (n + 1) / 10 == n / 10 + 1;
      } else {
        assert (n + 1) / 10 == n / 10;
      }
    }
  }

  /** Omitting one block less shortens the notice by at most one character: a digit or the plural, never both. */
  lemma NoticeShrinksByAtMostOne(omitted: nat)
    ensures |Notice(omitted + 1)| <= |Notice(omitted)| + 1
  {
    DecimalGrowsSlowly(omitted);
    if omitted == 1 {
      assert |Decimal(1)| == |Decimal(2)| == 1;
    }
  }

  /** Adding a block always makes the candidate longer. */
  lemma CandidateGrows(blocks: seq<string>, start: nat)
    requires start < |blocks|
    ensures |Candidate(blocks, start)| > |Candidate(blocks, start + 1)|
  {
    NoticeShrinksByAtMostOne(start);
    if start + 1 < |blocks| {
      assert blocks[start..][1..] == blocks[start + 1..];
    } else {
      assert blocks[start..] == [blocks[start]];
    }
  }

  lemma {:induction false} LongerCandidates(blocks: seq<string>, low: nat, high: nat)
    requires low < high <= |blocks|
    ensures |Candidate(blocks, low)| > |Candidate(blocks, high)|
    decreases high - low
  {
    CandidateGrows(blocks, low);
    if low + 1 < high {
      LongerCandidates(blocks, low + 1, high);
    }
  }

  function PowerOfTen(k: nat): nat {
    if k == 0 then 1 else 10 * PowerOfTen(k - 1)
  }

  lemma {:induction false} DecimalDigits(n: nat, k: nat)
    requires k >= 1 && n < PowerOfTen(k)
    ensures |Decimal(n)| <= k
  {
    if n >= 10 {
      assert k >= 2;
      DecimalDigits(n / 10, k - 1);
    }
  }

  const USIZE_LIMIT: nat := 0x1_0000_0000_0000_0000

  /** A notice always fits. */
  lemma NoticeFits(omitted: nat)
    requires omitted < USIZE_LIMIT
    ensures |Notice(omitted)| <= 120
  {
    assert PowerOfTen(20) > USIZE_LIMIT by {
      assert PowerOfTen(5) == 100_000;
      assert PowerOfTen(10) == 10_000_000_000;
      assert PowerOfTen(15) == 1_000_000_000_000_000;
    }
    DecimalDigits(omitted, 20);
    assert |NOTICE_MIDDLE| == 16 && |NOTICE_END| == 63;
  }

  /** What a reader is promised: everything if it fits, else the longest suffix of whole blocks that does. */
  ghost predicate LongestFit(blocks: seq<string>, r: string) {
    if |Join(blocks, SEPARATOR)| <= MAX_CHARS then r == Join(blocks, SEPARATOR)
    else exists start :: 1 <= start <= |blocks| && r == Candidate(blocks, start)
           && forall s :: 0 <= s < start ==> |Candidate(blocks, s)| > MAX_CHARS
  }

  /** `truncate_previous_phase_conclusions`. */
  method Truncate(blocks: seq<string>) returns (r: string)
    requires |blocks| < USIZE_LIMIT
    ensures LongestFit(blocks, r)
    ensures |r| <= MAX_CHARS
  {
    JoinedLengthIsLength(blocks);
    var full := TotalChars(blocks);
    if full <= MAX_CHARS {
      return Join(blocks, SEPARATOR);
    }
    assert blocks[0..] == blocks;
    NoticeFits(|blocks|);
    var best := |blocks|;
    var start := |blocks|;
    while start > 0
      invariant 0 <= start <= |blocks| && best == start
      invariant |Candidate(blocks, best)| <= MAX_CHARS
    {
      start := start - 1;
      var notice := Notice(start);
      var suffix := Join(blocks[start..], SEPARATOR);
      if |notice| + 2 + |suffix| <= MAX_CHARS {
        best := start;
      } else {
        forall s | 0 <= s < best ensures |Candidate(blocks, s)| > MAX_CHARS {
          if s < start {
            LongerCandidates(blocks, s, start);
          }
        }
        break;
      }
    }
    return Candidate(blocks, best);
  }

  /** The sum of the block lengths and the separators between them. */
  method TotalChars(blocks: seq<string>) returns (n: nat)
    ensures n == JoinedLength(blocks)
  {
    n := 0;
    for i := 0 to |blocks|
      invariant n + (if i == |blocks| then 0 else (if i == 0 then 0 else 2) + JoinedLength(blocks[i..]))
                == JoinedLength(blocks)
    {
      assert blocks[i..][1..] == blocks[i + 1..];
      n := n + |blocks[i]| + if i == 0 then 0 else 2;
    }
  }
}
