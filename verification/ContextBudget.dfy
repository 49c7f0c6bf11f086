/** Packing messages into a token budget and planning their compression (agent/lib.rs). */
module ContextBudget {
  import opened Wrappers

  datatype Item = Item(id: string, tokens: nat, mustKeep: bool)

  /** A choice of messages, oldest first: selected or dropped. */
  type Selection = seq<bool>

  function AllButLast<T>(s: seq<T>): (r: seq<T>)
    requires s != []
  {
    s[..|s| - 1]
  }

  function Last<T>(s: seq<T>): T
    requires s != []
  {
    s[|s| - 1]
  }

  function RequiredTokens(messages: seq<Item>): nat {
    if messages == [] then 0
    else RequiredTokens(AllButLast(messages)) + if Last(messages).mustKeep then Last(messages).tokens else 0
  }

  function SelectedTokens(messages: seq<Item>, selection: Selection): nat
    requires |selection| == |messages|
  {
    if messages == [] then 0
    else
      SelectedTokens(AllButLast(messages), AllButLast(selection))
      + if Last(selection) then Last(messages).tokens else 0
  }

  predicate KeepsRequired(messages: seq<Item>, selection: Selection) {
    |selection| == |messages| && forall i :: 0 <= i < |messages| && messages[i].mustKeep ==> selection[i]
  }

  /** Keeps what must be kept and stays within the budget. */
  predicate Feasible(messages: seq<Item>, selection: Selection, available: int) {
    KeepsRequired(messages, selection) && SelectedTokens(messages, selection) <= available
  }

  /** On the newest message where the two choices differ, `s` keeps it. */
  predicate AtLeast(s: Selection, t: Selection)
    requires |s| == |t|
  {
    s == t || exists d :: 0 <= d < |s| && s[d] && !t[d] && forall i :: d < i < |s| ==> s[i] == t[i]
  }

  /** The newest-first pass with `remaining` tokens left for optional messages. */
  function Greedy(messages: seq<Item>, remaining: nat): (r: Selection)
    ensures |r| == |messages|
  {
    if messages == [] then []
    else
      var m := Last(messages);
      if m.mustKeep then Greedy(AllButLast(messages), remaining) + [true]
      else if m.tokens <= remaining then Greedy(AllButLast(messages), remaining - m.tokens) + [true]
      else Greedy(AllButLast(messages), remaining) + [false]
  }

  lemma {:induction false} GreedyFits(messages: seq<Item>, remaining: nat)
    ensures Feasible(messages, Greedy(messages, remaining), RequiredTokens(messages) + remaining)
  {
    if messages != [] {
      var m := Last(messages);
      var left := if !m.mustKeep && m.tokens <= remaining then remaining - m.tokens else remaining;
      GreedyFits(AllButLast(messages), left);
      assert AllButLast(Greedy(messages, remaining)) == Greedy(AllButLast(messages), left);
      assert forall i :: 0 <= i < |messages| - 1 ==> AllButLast(messages)[i] == messages[i];
    }
  }

  lemma {:induction false} AtLeastRequired(messages: seq<Item>, selection: Selection)
    requires KeepsRequired(messages, selection)
    ensures SelectedTokens(messages, selection) >= RequiredTokens(messages)
  {
    if messages != [] {
      AtLeastRequired(AllButLast(messages), AllButLast(selection));
    }
  }

  lemma AtLeastExtends(s: Selection, t: Selection, bit: bool)
    requires |s| == |t| && AtLeast(s, t)
    ensures AtLeast(s + [bit], t + [bit])
  {
    if s != t {
      var d :| 0 <= d < |s| && s[d] && !t[d] && forall i :: d < i < |s| ==> s[i] == t[i];
      assert (s + [bit])[d] && !(t + [bit])[d];
    }
  }

  /** The pass beats every feasible choice, comparing from the newest message to the oldest. */
  lemma {:induction false} GreedyIsGreatest(messages: seq<Item>, remaining: nat, t: Selection)
    requires Feasible(messages, t, RequiredTokens(messages) + remaining)
    ensures AtLeast(Greedy(messages, remaining), t)
  {
    if messages != [] {
      var m := Last(messages);
      var left := if !m.mustKeep && m.tokens <= remaining then remaining - m.tokens else remaining;
      var s := Greedy(messages, remaining);
      AtLeastRequired(AllButLast(messages), AllButLast(t));
      assert s == Greedy(AllButLast(messages), left) + [Last(s)];
      assert t == AllButLast(t) + [Last(t)];
      if Last(s) == Last(t) {
        GreedyIsGreatest(AllButLast(messages), left, AllButLast(t));
        AtLeastExtends(Greedy(AllButLast(messages), left), AllButLast(t), Last(t));
      }
    }
  }

  function SelectedIndices(selection: Selection): (r: seq<nat>)
    ensures forall k :: k in r <==> 0 <= k < |selection| && selection[k]
    ensures forall x :: 0 <= x < |r| ==> r[x] < |selection|
    ensures forall x, y :: 0 <= x < y < |r| ==> r[x] < r[y]
  {
    if selection == [] then []
    else
      var before := SelectedIndices(AllButLast(selection));
      assert forall x :: 0 <= x < |before| ==> before[x] in before;
      if Last(selection) then before + [|selection| - 1] else before
  }

  function DroppedIds(messages: seq<Item>, selection: Selection): seq<string>
    requires |selection| == |messages|
  {
    if messages == [] then []
    else DroppedIds(AllButLast(messages), AllButLast(selection)) + if Last(selection) then [] else [Last(messages).id]
  }

  datatype Packed = Packed(selectedIndices: seq<nat>, droppedIds: seq<string>, usedTokens: nat)

  /** The packed context that a selection gives. */
  function PackedBy(messages: seq<Item>, selection: Selection): Packed
    requires |selection| == |messages|
  {
    Packed(SelectedIndices(selection), DroppedIds(messages, selection), SelectedTokens(messages, selection))
  }

  function Complement(selection: Selection): (r: Selection)
    ensures |r| == |selection| && forall i :: 0 <= i < |r| ==> r[i] == !selection[i]
  {
    seq(|selection|, i requires 0 <= i < |selection| => !selection[i])
  }

  function IdsAt(messages: seq<Item>, indices: seq<nat>): (r: seq<string>)
    requires forall x :: 0 <= x < |indices| ==> indices[x] < |messages|
    ensures |r| == |indices| && forall x :: 0 <= x < |r| ==> r[x] == messages[indices[x]].id
  {
    seq(|indices|, x requires 0 <= x < |indices| => messages[indices[x]].id)
  }

  lemma {:induction false} SelectedAndDropped(messages: seq<Item>, selection: Selection)
    requires |selection| == |messages|
    ensures |SelectedIndices(selection)| + |DroppedIds(messages, selection)| == |messages|
    decreases |messages|
  {
    if messages != [] {
      SelectedAndDropped(AllButLast(messages), AllButLast(selection));
    }
  }

  lemma ComplementOfFewer(selection: Selection)
    requires selection != []
    ensures AllButLast(Complement(selection)) == Complement(AllButLast(selection))
    ensures Last(Complement(selection)) == !Last(selection)
  {
  }

  lemma {:induction false} TokensSplit(messages: seq<Item>, selection: Selection)
    requires |selection| == |messages|
    ensures SelectedTokens(messages, selection) + SelectedTokens(messages, Complement(selection))
            == TotalTokens(messages)
    decreases |messages|
  {
    if messages != [] {
      TokensSplit(AllButLast(messages), AllButLast(selection));
      ComplementOfFewer(selection);
    }
  }

  lemma IdsAtFewer(messages: seq<Item>, indices: seq<nat>)
    requires messages != [] && forall x :: 0 <= x < |indices| ==> indices[x] < |messages| - 1
    ensures IdsAt(messages, indices) == IdsAt(AllButLast(messages), indices)
    ensures IdsAt(messages, indices + [|messages| - 1]) == IdsAt(messages, indices) + [Last(messages).id]
  {
  }

  lemma {:induction false} DroppedAreTheOthers(messages: seq<Item>, selection: Selection)
    requires |selection| == |messages|
    ensures DroppedIds(messages, selection) == IdsAt(messages, SelectedIndices(Complement(selection)))
    decreases |messages|
  {
    if messages != [] {
      DroppedAreTheOthers(AllButLast(messages), AllButLast(selection));
      ComplementOfFewer(selection);
      IdsAtFewer(messages, SelectedIndices(Complement(AllButLast(selection))));
    }
  }

  /** Every message is either selected or dropped, in message order, and the tokens add up. */
  lemma {:induction false} PackingSplitsTheMessages(messages: seq<Item>, selection: Selection)
    requires |selection| == |messages|
    ensures |SelectedIndices(selection)| + |DroppedIds(messages, selection)| == |messages|
    ensures DroppedIds(messages, selection) == IdsAt(messages, SelectedIndices(Complement(selection)))
    ensures SelectedTokens(messages, selection) + SelectedTokens(messages, Complement(selection))
            == TotalTokens(messages)
  {
    SelectedAndDropped(messages, selection);
    DroppedAreTheOthers(messages, selection);
    TokensSplit(messages, selection);
  }

  /** The selection that `pack_context` makes when the required messages fit. */
  function Packing(messages: seq<Item>, available: nat): Selection
    requires RequiredTokens(messages) <= available
  {
    Greedy(messages, available - RequiredTokens(messages))
  }

  /** It is feasible, no feasible choice is better from newest to oldest, and no dropped message would still fit. */
  lemma {:induction false} PackingIsGreatest(messages: seq<Item>, available: nat)
    requires RequiredTokens(messages) <= available
    ensures Feasible(messages, Packing(messages, available), available)
    ensures forall t :: Feasible(messages, t, available) ==> AtLeast(Packing(messages, available), t)
    ensures forall d :: 0 <= d < |messages| && !Packing(messages, available)[d] ==>
              SelectedTokens(messages, Packing(messages, available)) + messages[d].tokens > available
  {
    var s := Packing(messages, available);
    GreedyFits(messages, available - RequiredTokens(messages));
    forall t | Feasible(messages, t, available) ensures AtLeast(s, t) {
      GreedyIsGreatest(messages, available - RequiredTokens(messages), t);
    }
    forall d | 0 <= d < |messages| && !s[d] ensures SelectedTokens(messages, s) + messages[d].tokens > available {
      DroppedWouldNotFit(messages, s, available, d);
    }
  }

  lemma DroppedWouldNotFit(messages: seq<Item>, s: Selection, available: nat, d: nat)
    requires Feasible(messages, s, available) && d < |s| && !s[d]
    requires forall t :: Feasible(messages, t, available) ==> AtLeast(s, t)
    ensures SelectedTokens(messages, s) + messages[d].tokens > available
  {
    TokensOfOneMore(messages, s, d);
    OneMoreIsNotBelow(s, d);
    assert !Feasible(messages, s[d := true], available);
  }

  lemma OneMoreIsNotBelow(s: Selection, d: nat)
    requires d < |s| && !s[d]
    ensures !AtLeast(s, s[d := true])
  {
  }

  lemma {:induction false} TokensOfOneMore(messages: seq<Item>, s: Selection, d: nat)
    requires |s| == |messages| && d < |s| && !s[d]
    ensures SelectedTokens(messages, s[d := true]) == SelectedTokens(messages, s) + messages[d].tokens
  {
    if d < |s| - 1 {
      TokensOfOneMore(AllButLast(messages), AllButLast(s), d);
      assert AllButLast(s[d := true]) == AllButLast(s)[d := true];
    } else {
      assert AllButLast(s[d := true]) == AllButLast(s);
    }
  }

  lemma Extend<T>(s: seq<T>, i: nat)
    requires i < |s|
    ensures AllButLast(s[..i + 1]) == s[..i] && Last(s[..i + 1]) == s[i]
  {
  }

  /** The selected flags while the newest-first loop stands at `i`; `whole` is where it ends. */
  ghost predicate Passed(messages: seq<Item>, whole: Selection, flags: Selection, i: nat, remaining: nat) {
    i <= |flags| == |messages|
    && (forall k :: 0 <= k < i ==> flags[k] == messages[k].mustKeep)
    && whole == Greedy(messages[..i], remaining) + flags[i..]
  }

  lemma GreedyStep(messages: seq<Item>, i: nat, remaining: nat)
    requires i < |messages|
    ensures messages[i].mustKeep ==>
              Greedy(messages[..i + 1], remaining) == Greedy(messages[..i], remaining) + [true]
    ensures !messages[i].mustKeep && messages[i].tokens <= remaining ==>
              Greedy(messages[..i + 1], remaining) == Greedy(messages[..i], remaining - messages[i].tokens) + [true]
    ensures !messages[i].mustKeep && messages[i].tokens > remaining ==>
              Greedy(messages[..i + 1], remaining) == Greedy(messages[..i], remaining) + [false]
  {
    Extend(messages, i);
  }

  lemma PassSelects(messages: seq<Item>, whole: Selection, flags: Selection, i: nat, remaining: nat)
    requires i < |messages| && Passed(messages, whole, flags, i + 1, remaining)
    requires !flags[i] && messages[i].tokens <= remaining
    ensures Passed(messages, whole, flags[i := true], i, remaining - messages[i].tokens)
  {
    GreedyStep(messages, i, remaining);
    var head, tail := Greedy(messages[..i], remaining - messages[i].tokens), flags[i + 1..];
    assert flags[i := true][i..] == [true] + tail;
    assert head + [true] + tail == head + ([true] + tail);
  }

  lemma PassSkips(messages: seq<Item>, whole: Selection, flags: Selection, i: nat, remaining: nat)
    requires i < |messages| && Passed(messages, whole, flags, i + 1, remaining)
    requires flags[i] || messages[i].tokens > remaining
    ensures Passed(messages, whole, flags, i, remaining)
  {
    GreedyStep(messages, i, remaining);
    var head, tail := Greedy(messages[..i], remaining), flags[i + 1..];
    assert flags[i..] == [flags[i]] + tail;
    assert head + [flags[i]] + tail == head + ([flags[i]] + tail);
  }

  /** `pack_context`. */
  method PackContext(messages: seq<Item>, available: nat) returns (r: Result<Packed, nat>)
    ensures r.Ok? <==> RequiredTokens(messages) <= available
    ensures r.Err? ==> r.error == RequiredTokens(messages)
    ensures r.Ok? ==> r.value == PackedBy(messages, Packing(messages, available))
  {
    var required: nat := 0;
    for i := 0 to |messages|
      invariant required == RequiredTokens(messages[..i])
    {
      Extend(messages, i);
      if messages[i].mustKeep {
        required := required + messages[i].tokens;
      }
    }
    assert messages[..|messages|] == messages;
    if required > available {
      return Err(required);
    }

    var selected := SelectNewestFirst(messages, available - required);
    r := CollectPacked(messages, selected);
  }

  /** Marks what must be kept, then fills the remaining tokens from the newest message on. */
  method SelectNewestFirst(messages: seq<Item>, optional: nat) returns (selected: array<bool>)
    ensures selected[..] == Greedy(messages, optional)
  {
    selected := new bool[|messages|](_ => false);
    var remaining: nat := optional;
    for i := 0 to |messages|
      invariant forall k :: 0 <= k < |messages| ==> selected[k] == (k < i && messages[k].mustKeep)
    {
      if messages[i].mustKeep {
        selected[i] := true;
      }
    }
    ghost var whole := Greedy(messages, optional);
    assert messages[..|messages|] == messages;
    for i := |messages| downto 0
      invariant Passed(messages, whole, selected[..], i, remaining)
    {
      ghost var before := selected[..];
      if !selected[i] && messages[i].tokens <= remaining {
        PassSelects(messages, whole, before, i, remaining);
        selected[i] := true;
        remaining := remaining - messages[i].tokens;
        assert selected[..] == before[i := true];
      } else {
        PassSkips(messages, whole, before, i, remaining);
      }
    }
    assert messages[..0] == [] && selected[..] == whole;
  }

  /** The last loop: reads the flags in message order. */
  method CollectPacked(messages: seq<Item>, selected: array<bool>) returns (r: Result<Packed, nat>)
    requires selected.Length == |messages|
    ensures r == Ok(PackedBy(messages, selected[..]))
  {
    ghost var s := selected[..];
    var indices: seq<nat>, dropped: seq<string>, used: nat := [], [], 0;
    for i := 0 to |messages|
      invariant indices == SelectedIndices(s[..i])
      invariant dropped == DroppedIds(messages[..i], s[..i])
      invariant used == SelectedTokens(messages[..i], s[..i])
    {
      Extend(messages, i);
      Extend(s, i);
      if selected[i] {
        indices := indices + [i];
        used := used + messages[i].tokens;
      } else {
        dropped := dropped + [messages[i].id];
      }
    }
    assert messages[..|messages|] == messages && s[..|messages|] == s;
    return Ok(Packed(indices, dropped, used));
  }

  // ----- Compression -----

  const MAX_U64: nat := 0xFFFF_FFFF_FFFF_FFFF

  /** `context_compression_trigger_tokens`: four fifths of the budget, the product saturating. */
  function TriggerTokens(available: nat): nat {
    (if available * 4 > MAX_U64 then MAX_U64 else available * 4) / 5
  }

  function TotalTokens(messages: seq<Item>): nat {
    if messages == [] then 0 else TotalTokens(AllButLast(messages)) + Last(messages).tokens
  }

  predicate Compressible(messages: seq<Item>, activeStart: nat, i: nat)
    requires i < |messages|
  {
    i < activeStart && !messages[i].mustKeep && messages[i].tokens > 0
  }

  function CompressibleIndices(messages: seq<Item>, activeStart: nat, upTo: nat): (r: seq<nat>)
    requires upTo <= |messages|
    ensures forall i: nat :: i in r <==> i < upTo && Compressible(messages, activeStart, i)
    ensures forall x, y :: 0 <= x < y < |r| ==> r[x] < r[y]
  {
    if upTo == 0 then []
    else
      var before := CompressibleIndices(messages, activeStart, upTo - 1);
      assert forall x :: 0 <= x < |before| ==> before[x] in before;
      if Compressible(messages, activeStart, upTo - 1) then before + [upTo - 1] else before
  }

  /** What can be compressed: messages before the active tool exchange that have tokens and need not be kept. */
  lemma CompressibleMeaning(messages: seq<Item>, activeStart: nat, i: nat)
    ensures i in CompressibleIndices(messages, activeStart, |messages|) <==>
            i < |messages| && i < activeStart && !messages[i].mustKeep && messages[i].tokens > 0
  {
  }

  function TokensAt(messages: seq<Item>, indices: seq<nat>): nat
    requires forall x :: 0 <= x < |indices| ==> indices[x] < |messages|
  {
    if indices == [] then 0 else TokensAt(messages, AllButLast(indices)) + messages[Last(indices)].tokens
  }

  /** The choice of exactly these messages. */
  function Chosen(count: nat, indices: seq<nat>): (r: Selection)
    ensures |r| == count && forall i :: 0 <= i < count ==> (r[i] <==> i in indices)
  {
    seq(count, i => i in indices)
  }

  predicate Increasing(indices: seq<nat>) {
    forall x, y :: 0 <= x < y < |indices| ==> indices[x] < indices[y]
  }

  lemma {:induction false} TokensAtFewer(messages: seq<Item>, indices: seq<nat>)
    requires messages != [] && forall x :: 0 <= x < |indices| ==> indices[x] < |messages| - 1
    ensures TokensAt(messages, indices) == TokensAt(AllButLast(messages), indices)
    decreases |indices|
  {
    if indices != [] {
      TokensAtFewer(messages, AllButLast(indices));
    }
  }

  lemma ChosenOfFewer(count: nat, indices: seq<nat>)
    requires count > 0 && Increasing(indices) && forall x :: 0 <= x < |indices| ==> indices[x] < count
    ensures var newest := indices != [] && Last(indices) == count - 1;
            var others := if newest then AllButLast(indices) else indices;
            Last(Chosen(count, indices)) == newest
            && AllButLast(Chosen(count, indices)) == Chosen(count - 1, others)
            && (forall x :: 0 <= x < |others| ==> others[x] < count - 1) && Increasing(others)
  {
    var newest := indices != [] && Last(indices) == count - 1;
    var others := if newest then AllButLast(indices) else indices;
    assert indices == if newest then others + [count - 1] else others;
    forall x | 0 <= x < |others| ensures others[x] < count - 1 {
      assert x < |indices| - 1 ==> indices[x] < Last(indices);
    }
  }

  /** Summing over increasing indices is summing over the messages chosen by them. */
  lemma {:induction false} TokensAtAreSelected(messages: seq<Item>, indices: seq<nat>)
    requires Increasing(indices) && forall x :: 0 <= x < |indices| ==> indices[x] < |messages|
    ensures TokensAt(messages, indices) == SelectedTokens(messages, Chosen(|messages|, indices))
    decreases |messages|
  {
    if messages == [] {
      assert indices == [];
    } else {
      ChosenOfFewer(|messages|, indices);
      var newest := indices != [] && Last(indices) == |messages| - 1;
      var others := if newest then AllButLast(indices) else indices;
      TokensAtFewer(messages, others);
      TokensAtAreSelected(AllButLast(messages), others);
    }
  }

  datatype CompressionPlan = CompressionPlan(coveredIndices: seq<nat>, originalTokens: nat, triggerTokens: nat)

  /** `plan_context_compression_at_trigger`. */
  function PlanCompression(
    messages: seq<Item>, available: nat, trigger: nat, activeStart: nat, preserve: nat): Option<CompressionPlan>
  {
    if available == 0 then None
    else if TotalTokens(messages) <= trigger then None
    else
      var compressible := CompressibleIndices(messages, activeStart, |messages|);
      if |compressible| <= preserve then None
      else
        assert forall x :: 0 <= x < |compressible| ==> compressible[x] in compressible;
        var covered := compressible[..|compressible| - preserve];
        var original := TokensAt(messages, covered);
        if original == 0 then None else Some(CompressionPlan(covered, original, trigger))
  }

  /** `covered` holds the `count` oldest compressible messages. */
  predicate OldestCompressible(messages: seq<Item>, activeStart: nat, covered: seq<nat>, count: nat) {
    |covered| == count
    && (forall x :: 0 <= x < |covered| ==> covered[x] < |messages| && Compressible(messages, activeStart, covered[x]))
    && (forall x, y :: 0 <= x < y < |covered| ==> covered[x] < covered[y])
    && (forall x, k ::
          0 <= x < |covered| && 0 <= k < covered[x] && k < |messages| && Compressible(messages, activeStart, k) ==>
            k in covered)
  }

  lemma FirstCompressible(messages: seq<Item>, activeStart: nat, count: nat)
    requires count <= |CompressibleIndices(messages, activeStart, |messages|)|
    ensures OldestCompressible(
              messages, activeStart, CompressibleIndices(messages, activeStart, |messages|)[..count], count)
  {
    var compressible := CompressibleIndices(messages, activeStart, |messages|);
    var covered := compressible[..count];
    forall x | 0 <= x < |covered| ensures covered[x] < |messages| && Compressible(messages, activeStart, covered[x]) {
      assert compressible[x] in compressible;
    }
    forall x, k | 0 <= x < |covered| && 0 <= k < covered[x] && k < |messages| && Compressible(messages, activeStart, k)
      ensures k in covered
    {
      assert k in compressible;
      var y :| 0 <= y < |compressible| && compressible[y] == k;
      if x <= y {
        assert compressible[x] == covered[x];
      } else {
        assert covered[y] == k;
      }
    }
  }

  /**
   A plan exists exactly when the budget is not zero, the messages exceed the trigger and more than
   `preserve` messages can be compressed; the exit for zero covered tokens is never taken. It covers
   all the compressible messages but the `preserve` newest ones, and counts exactly their tokens.
   */
  lemma CompressionPlanMeaning(messages: seq<Item>, available: nat, trigger: nat, activeStart: nat, preserve: nat)
    ensures var compressible := |CompressibleIndices(messages, activeStart, |messages|)|;
            var plan := PlanCompression(messages, available, trigger, activeStart, preserve);
            (plan.Some? <==> available > 0 && TotalTokens(messages) > trigger && compressible > preserve)
            && (plan.Some? ==>
                  OldestCompressible(messages, activeStart, plan.value.coveredIndices, compressible - preserve)
                  && (forall i :: 0 <= i < |messages| && i in plan.value.coveredIndices ==>
                        i < activeStart && !messages[i].mustKeep && messages[i].tokens > 0)
                  && plan.value.originalTokens
                     == SelectedTokens(messages, Chosen(|messages|, plan.value.coveredIndices)) > 0
                  && plan.value.triggerTokens == trigger)
  {
    var compressible := CompressibleIndices(messages, activeStart, |messages|);
    if |compressible| > preserve {
      FirstCompressible(messages, activeStart, |compressible| - preserve);
      var covered := compressible[..|compressible| - preserve];
      assert Compressible(messages, activeStart, Last(covered));
      TokensAtAreSelected(messages, covered);
    }
  }

  lemma {:induction false} RequiredAtMostTotal(messages: seq<Item>)
    ensures RequiredTokens(messages) <= TotalTokens(messages)
  {
    if messages != [] {
      RequiredAtMostTotal(AllButLast(messages));
    }
  }

  lemma {:induction false} GreedyKeepsAllThatFit(messages: seq<Item>, remaining: nat)
    requires TotalTokens(messages) <= RequiredTokens(messages) + remaining
    ensures forall i :: 0 <= i < |messages| ==> Greedy(messages, remaining)[i]
    ensures DroppedIds(messages, Greedy(messages, remaining)) == []
  {
    if messages != [] {
      var m := Last(messages);
      RequiredAtMostTotal(AllButLast(messages));
      var left := if m.mustKeep then remaining else remaining - m.tokens;
      GreedyKeepsAllThatFit(AllButLast(messages), left);
      assert AllButLast(Greedy(messages, remaining)) == Greedy(AllButLast(messages), left);
    }
  }

  lemma {:induction false} NothingDroppedWithinBudget(messages: seq<Item>, available: nat)
    requires TotalTokens(messages) <= available
    ensures RequiredTokens(messages) <= available
    ensures DroppedIds(messages, Packing(messages, available)) == []
    ensures forall i :: 0 <= i < |messages| ==> Packing(messages, available)[i]
  {
    RequiredAtMostTotal(messages);
    GreedyKeepsAllThatFit(messages, available - RequiredTokens(messages));
  }

  /**
   The trigger is four fifths of the budget, rounded down, until the product saturates; it never
   exceeds the budget.
   */
  lemma TriggerWithinBudget(available: nat)
    ensures TriggerTokens(available) <= available
    ensures available * 4 <= MAX_U64 ==>
              TriggerTokens(available) * 5 <= available * 4 < TriggerTokens(available) * 5 + 5
    ensures available * 4 >= 0xFFFF_FFFF_FFFF_FFFF ==> TriggerTokens(available) == 0xFFFF_FFFF_FFFF_FFFF / 5
  {
  }

  /** While the messages stay at or under the default trigger, packing them into the same budget drops nothing. */
  lemma {:induction false} NothingDroppedUnderTrigger(messages: seq<Item>, available: nat, trigger: nat)
    requires trigger == TriggerTokens(available) && TotalTokens(messages) <= trigger
    ensures RequiredTokens(messages) <= available
    ensures PackedBy(messages, Packing(messages, available)).droppedIds == []
    ensures forall i :: 0 <= i < |messages| ==> Packing(messages, available)[i]
  {
    TriggerWithinBudget(available);
    NothingDroppedWithinBudget(messages, available);
  }
}
