/** Which of the discovered skills are listed (app/skills.rs). */
module SkillListing {
  import opened Wrappers
  import opened SkillParsing

  /** Paths compare component by component. */
  type Path = seq<string>

  /** A file whose id is known: the skill it stands for and whether the whole document is valid. */
  datatype Candidate = Candidate(
    key: string,
    id: string,
    description: string,
    path: Path,
    scope: Scope,
    workspaceName: Option<string>,
    valid: bool)

  predicate HasKey(candidates: seq<Candidate>, key: string) {
    exists i :: 0 <= i < |candidates| && candidates[i].key == key
  }

  function WithValidity(candidates: seq<Candidate>, valid: bool): seq<Candidate> {
    if candidates == [] then []
    else
      var last := candidates[|candidates| - 1];
      WithValidity(candidates[..|candidates| - 1], valid) + if last.valid == valid then [last] else []
  }

  /** The first candidate of each key that is not in `taken`. */
  function Firsts(candidates: seq<Candidate>, taken: seq<Candidate>): seq<Candidate> {
    if candidates == [] then []
    else
      var last := candidates[|candidates| - 1];
      var before := Firsts(candidates[..|candidates| - 1], taken);
      if HasKey(taken, last.key) || HasKey(before, last.key) then before else before + [last]
  }

  /** The listed valid skills, then the keys that only invalid files provide. */
  function ListedValid(candidates: seq<Candidate>): seq<Candidate> {
    Firsts(WithValidity(candidates, true), [])
  }

  function ListedInvalid(candidates: seq<Candidate>): seq<Candidate> {
    Firsts(WithValidity(candidates, false), ListedValid(candidates))
  }

  function Keys(candidates: seq<Candidate>): (r: seq<string>)
    ensures |r| == |candidates| && forall i :: 0 <= i < |r| ==> r[i] == candidates[i].key
  {
    seq(|candidates|, i requires 0 <= i < |candidates| => candidates[i].key)
  }

  lemma HasKeyAppend(s: seq<Candidate>, c: Candidate, key: string)
    ensures HasKey(s + [c], key) <==> HasKey(s, key) || c.key == key
  {
    var t := s + [c];
    assert t[|s|] == c;
    if HasKey(s, key) {
      var i :| 0 <= i < |s| && s[i].key == key;
      assert t[i].key == key;
    }
  }

  lemma HasKeyConcat(a: seq<Candidate>, b: seq<Candidate>, key: string)
    ensures HasKey(a + b, key) <==> HasKey(a, key) || HasKey(b, key)
  {
    if HasKey(a, key) {
      var i :| 0 <= i < |a| && a[i].key == key;
      assert (a + b)[i].key == key;
    }
    if HasKey(b, key) {
      var i :| 0 <= i < |b| && b[i].key == key;
      assert (a + b)[|a| + i].key == key;
    }
  }

  // ----- What the listing means -----

  /** `c` stands at a place where no earlier candidate of the list has its key. */
  predicate LeadsItsKey(candidates: seq<Candidate>, c: Candidate) {
    exists i :: 0 <= i < |candidates| && candidates[i] == c && forall k :: 0 <= k < i ==> candidates[k].key != c.key
  }

  predicate DistinctKeys(candidates: seq<Candidate>) {
    forall i, j :: 0 <= i < j < |candidates| ==> candidates[i].key != candidates[j].key
  }

  lemma {:induction false} FirstsKeys(candidates: seq<Candidate>, taken: seq<Candidate>, key: string)
    ensures HasKey(Firsts(candidates, taken), key) <==> HasKey(candidates, key) && !HasKey(taken, key)
    decreases |candidates|
  {
    if candidates != [] {
      var before, last := candidates[..|candidates| - 1], candidates[|candidates| - 1];
      FirstsKeys(before, taken, key);
      HasKeyAppend(before, last, key);
      assert candidates == before + [last];
      HasKeyAppend(Firsts(before, taken), last, key);
    }
  }

  lemma {:induction false} FirstsAreDistinct(candidates: seq<Candidate>, taken: seq<Candidate>)
    ensures DistinctKeys(Firsts(candidates, taken))
    decreases |candidates|
  {
    if candidates != [] {
      FirstsAreDistinct(candidates[..|candidates| - 1], taken);
    }
  }

  lemma {:induction false} FirstsAreFirst(candidates: seq<Candidate>, taken: seq<Candidate>, c: Candidate)
    requires c in Firsts(candidates, taken)
    ensures LeadsItsKey(candidates, c)
    decreases |candidates|
  {
    var before, last := candidates[..|candidates| - 1], candidates[|candidates| - 1];
    if c in Firsts(before, taken) {
      FirstsAreFirst(before, taken, c);
      var i :| 0 <= i < |before| && before[i] == c && forall k :: 0 <= k < i ==> before[k].key != c.key;
      assert candidates[i] == c && forall k :: 0 <= k < i ==> candidates[k] == before[k];
    } else {
      FirstsKeys(before, taken, c.key);
      assert c == last;
      forall k | 0 <= k < |candidates| - 1 ensures candidates[k].key != c.key {
        assert before[k] == candidates[k];
      }
    }
  }

  lemma {:induction false} ValidityKeys(candidates: seq<Candidate>, valid: bool, key: string)
    ensures HasKey(WithValidity(candidates, valid), key) <==>
            exists i :: 0 <= i < |candidates| && candidates[i].key == key && candidates[i].valid == valid
    decreases |candidates|
  {
    if candidates != [] {
      var before, last := candidates[..|candidates| - 1], candidates[|candidates| - 1];
      ValidityKeys(before, valid, key);
      HasKeyAppend(WithValidity(before, valid), last, key);
      assert WithValidity(before, valid) + [] == WithValidity(before, valid);
      forall i | 0 <= i < |before| ensures candidates[i] == before[i] {
      }
      if i :| 0 <= i < |candidates| && candidates[i].key == key && candidates[i].valid == valid {
        assert i < |before| ==> before[i].key == key;
      }
    }
  }

  /** The first candidate with its key among those of its own validity, in discovery order. */
  predicate Wins(candidates: seq<Candidate>, c: Candidate) {
    exists i :: 0 <= i < |candidates| && candidates[i] == c
      && forall k :: 0 <= k < i && candidates[k].valid == c.valid ==> candidates[k].key != c.key
  }

  lemma {:induction false} FirstOfValidityWins(candidates: seq<Candidate>, valid: bool, c: Candidate)
    requires LeadsItsKey(WithValidity(candidates, valid), c)
    ensures c.valid == valid && Wins(candidates, c)
    decreases |candidates|
  {
    if candidates != [] {
      var before, last := candidates[..|candidates| - 1], candidates[|candidates| - 1];
      var kept := WithValidity(before, valid);
      var all := WithValidity(candidates, valid);
      var i :| 0 <= i < |all| && all[i] == c && forall k :: 0 <= k < i ==> all[k].key != c.key;
      if i < |kept| {
        assert kept[i] == c && forall k :: 0 <= k < i ==> kept[k] == all[k];
        FirstOfValidityWins(before, valid, c);
        var p :| 0 <= p < |before| && before[p] == c
                 && forall k :: 0 <= k < p && before[k].valid == c.valid ==> before[k].key != c.key;
        assert candidates[p] == c && forall k :: 0 <= k < p ==> candidates[k] == before[k];
      } else {
        assert c == last;
        forall j | 0 <= j < |kept| ensures kept[j].key != c.key {
          assert all[j] == kept[j];
        }
        ValidityKeys(before, valid, c.key);
        assert candidates[|before|] == c && forall k :: 0 <= k < |before| ==> candidates[k] == before[k];
      }
    }
  }

  ghost predicate FromValidFile(candidates: seq<Candidate>, key: string) {
    exists i :: 0 <= i < |candidates| && candidates[i].key == key && candidates[i].valid
  }

  /**
   Whatever the roots hold: the listed keys are pairwise distinct; a key is listed exactly when some
   file provides it; the first valid file of a key wins, an invalid file is listed only when no file
   of the key is valid, and exactly those keys are required to be disabled.
   */
  lemma DiscoveryMeaning(candidates: seq<Candidate>)
    ensures DistinctKeys(ListedValid(candidates) + ListedInvalid(candidates))
    ensures forall c :: c in ListedValid(candidates) ==> c.valid && Wins(candidates, c)
    ensures forall c :: c in ListedInvalid(candidates) ==> !c.valid && Wins(candidates, c)
    ensures forall key :: HasKey(ListedValid(candidates), key) <==> FromValidFile(candidates, key)
    ensures forall key :: HasKey(ListedInvalid(candidates), key) <==>
            HasKey(candidates, key) && !FromValidFile(candidates, key)
  {
    var valid, invalid := ListedValid(candidates), ListedInvalid(candidates);
    FirstsAreDistinct(WithValidity(candidates, true), []);
    FirstsAreDistinct(WithValidity(candidates, false), valid);
    forall key
      ensures HasKey(valid, key) <==> FromValidFile(candidates, key)
      ensures HasKey(invalid, key) <==> HasKey(candidates, key) && !FromValidFile(candidates, key)
    {
      ListedKeys(candidates, key);
    }
    forall c | c in valid ensures c.valid && Wins(candidates, c) {
      FirstsAreFirst(WithValidity(candidates, true), [], c);
      FirstOfValidityWins(candidates, true, c);
    }
    forall c | c in invalid ensures !c.valid && Wins(candidates, c) {
      FirstsAreFirst(WithValidity(candidates, false), valid, c);
      FirstOfValidityWins(candidates, false, c);
    }
    DistinctConcat(valid, invalid);
  }

  lemma ListedKeys(candidates: seq<Candidate>, key: string)
    ensures HasKey(ListedValid(candidates), key) <==> FromValidFile(candidates, key)
    ensures HasKey(ListedInvalid(candidates), key) <==> HasKey(candidates, key) && !FromValidFile(candidates, key)
  {
    FirstsKeys(WithValidity(candidates, true), [], key);
    FirstsKeys(WithValidity(candidates, false), ListedValid(candidates), key);
    ValidityKeys(candidates, true, key);
    ValidityKeys(candidates, false, key);
  }

  lemma DistinctConcat(a: seq<Candidate>, b: seq<Candidate>)
    requires DistinctKeys(a) && DistinctKeys(b)
    requires forall key :: HasKey(b, key) ==> !HasKey(a, key)
    ensures DistinctKeys(a + b)
  {
    var s := a + b;
    forall i, j | 0 <= i < j < |s| ensures s[i].key != s[j].key {
      if i < |a| <= j {
        assert b[j - |a|] == s[j] && HasKey(b, s[j].key);
        assert a[i] == s[i] && HasKey(a, s[i].key);
      }
    }
  }
}
