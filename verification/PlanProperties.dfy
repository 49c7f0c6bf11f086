/** What every plan of the tool-batch planner guarantees. */
module PlanProperties {
  import opened Wrappers
  import opened Bags
  import opened ToolCalls
  import opened ToolPlanner

  function Indices(group: Group): seq<nat> {
    match group
    case Sequential(i) => [i]
    case Parallel(indices) => indices
  }

  function Flatten(groups: seq<Group>): seq<nat> {
    if groups == [] then [] else Indices(groups[0]) + Flatten(groups[1..])
  }

  /** The first group covers the calls up to where the other groups start. */
  lemma {:induction false} FirstGroup(calls: seq<Analysis>, i: nat) returns (group: Group, e: nat)
    requires i < |calls|
    ensures i < e <= |calls| && Indices(group) == Range(i, e)
    ensures Groups(calls, i) == [group] + Groups(calls, e)
  {
    if calls[i].sequential {
      group, e := Sequential(i), i + 1;
    } else {
      e := GroupEnd(calls, i, i + 1);
      group := Parallel(Range(i, e));
    }
  }

  lemma RangesJoin(i: nat, e: nat, n: nat)
    requires i <= e <= n
    ensures Range(i, e) + Range(e, n) == Range(i, n)
  {
  }

  /** Every call of the batch is planned once, in batch order. */
  lemma {:induction false} GroupsCoverBatch(calls: seq<Analysis>, i: nat)
    requires i <= |calls|
    ensures Flatten(Groups(calls, i)) == Range(i, |calls|)
    decreases |calls| - i
  {
    if i < |calls| {
      var group, e := FirstGroup(calls, i);
      GroupsCoverBatch(calls, e);
      RangesJoin(i, e, |calls|);
      assert ([group] + Groups(calls, e))[1..] == Groups(calls, e);
    }
  }

  predicate NoOrderablePair(calls: seq<Analysis>, indices: seq<nat>)
    requires forall x :: 0 <= x < |indices| ==> indices[x] < |calls|
  {
    forall x, y :: 0 <= x < y < |indices| ==> !Orderable(calls[indices[x]], calls[indices[y]])
  }

  /** A sequential call stands alone; a parallel group holds no sequential call and no pair to be ordered. */
  predicate ValidGroup(calls: seq<Analysis>, group: Group) {
    match group
    case Sequential(i) => i < |calls| && calls[i].sequential
    case Parallel(indices) =>
      indices != []
      && (forall x :: 0 <= x < |indices| ==> indices[x] < |calls| && !calls[indices[x]].sequential)
      && NoOrderablePair(calls, indices)
  }

  lemma {:induction false} GroupEndIsConflictFree(calls: seq<Analysis>, start: nat, k: nat)
    requires start < k <= |calls|
    requires ValidGroup(calls, Parallel(Range(start, k)))
    ensures ValidGroup(calls, Parallel(Range(start, GroupEnd(calls, start, k))))
    decreases |calls| - k
  {
    if GroupEnd(calls, start, k) != k {
      var longer := Range(start, k + 1);
      forall x | 0 <= x < |longer| ensures longer[x] < |calls| && !calls[longer[x]].sequential {
        assert x < k - start ==> Range(start, k)[x] == longer[x];
      }
      forall x, y | 0 <= x < y < |longer| ensures !Orderable(calls[longer[x]], calls[longer[y]]) {
        if y == |longer| - 1 {
          assert Range(start, k)[x] == longer[x];
          assert longer[x] in Range(start, k) && !ConflictsWithPending(calls, Range(start, k), k);
        } else {
          assert Range(start, k)[x] == longer[x] && Range(start, k)[y] == longer[y];
        }
      }
      GroupEndIsConflictFree(calls, start, k + 1);
    }
  }

  lemma {:induction false} GroupsAreValid(calls: seq<Analysis>, i: nat)
    requires i <= |calls|
    ensures forall g :: g in Groups(calls, i) ==> ValidGroup(calls, g)
    decreases |calls| - i
  {
    if i < |calls| {
      if calls[i].sequential {
        GroupsAreValid(calls, i + 1);
      } else {
        GroupEndIsConflictFree(calls, i, i + 1);
        GroupsAreValid(calls, GroupEnd(calls, i, i + 1));
      }
    }
  }

  /** The locks of two calls never get in each other's way, leases aside. */
  predicate Independent(a: Analysis, b: Analysis) {
    forall l, m :: l in a.locks && m in b.locks && Conflict(l, m) ==> BothLeases(l, m)
  }

  lemma ConflictIsSymmetric(a: Analysis, b: Analysis)
    ensures Orderable(a, b) <==> Orderable(b, a)
    ensures HardConflict(a, b) <==> HardConflict(b, a)
    ensures Independent(a, b) <==> Independent(b, a)
  {
  }

  lemma {:induction false} GroupIsIncreasing(calls: seq<Analysis>, i: nat, group: Group)
    requires i <= |calls| && group in Groups(calls, i)
    ensures forall x, y :: 0 <= x < y < |Indices(group)| ==> Indices(group)[x] < Indices(group)[y]
    decreases |calls| - i
  {
    if i < |calls| {
      var first, e := FirstGroup(calls, i);
      if group != first {
        assert group in Groups(calls, e);
        GroupIsIncreasing(calls, e, group);
      }
    }
  }

  lemma MembersAreUnordered(calls: seq<Analysis>, group: Group, x: nat, y: nat)
    requires ValidGroup(calls, group) && x < y < |Indices(group)|
    ensures Indices(group)[x] < |calls| && Indices(group)[y] < |calls|
    ensures var a, b := calls[Indices(group)[x]], calls[Indices(group)[y]];
            !a.sequential && !b.sequential && !Orderable(a, b)
  {
  }

  lemma CompatiblePair(a: Analysis, b: Analysis)
    requires !a.sequential && !b.sequential && !Orderable(a, b) && Compatible(a, b)
    ensures Independent(a, b) && Independent(b, a)
  {
  }

  lemma {:induction false} OrderedMembersAreIndependent(calls: seq<Analysis>, group: Group, x: nat, y: nat)
    requires Accepts(calls) && group in Groups(calls, 0)
    requires x < y < |Indices(group)|
    ensures Indices(group)[x] < |calls| && Indices(group)[y] < |calls|
    ensures Independent(calls[Indices(group)[x]], calls[Indices(group)[y]])
    ensures Independent(calls[Indices(group)[y]], calls[Indices(group)[x]])
  {
    GroupsAreValid(calls, 0);
    GroupIsIncreasing(calls, 0, group);
    MembersAreUnordered(calls, group, x, y);
    CompatiblePair(calls[Indices(group)[x]], calls[Indices(group)[y]]);
  }

  /** In an accepted plan, distinct calls of one group hold no conflicting locks other than the lease. */
  lemma {:induction false} GroupMembersAreIndependent(calls: seq<Analysis>, group: Group, x: nat, y: nat)
    requires Accepts(calls)
    requires group in Groups(calls, 0)
    requires x < |Indices(group)| && y < |Indices(group)| && x != y
    ensures Indices(group)[x] < |calls| && Indices(group)[y] < |calls|
    ensures Independent(calls[Indices(group)[x]], calls[Indices(group)[y]])
  {
    if x < y {
      OrderedMembersAreIndependent(calls, group, x, y);
    } else {
      OrderedMembersAreIndependent(calls, group, y, x);
    }
  }

  // ----- The grouping uses the fewest groups -----

  /** A way to cut the calls from `i` on into valid groups that keep batch order. */
  predicate Partition(calls: seq<Analysis>, groups: seq<Group>, i: nat) {
    i <= |calls| && Flatten(groups) == Range(i, |calls|) && forall g :: g in groups ==> ValidGroup(calls, g)
  }

  lemma {:induction false} GroupEndReaches(calls: seq<Analysis>, start: nat, k: nat, limit: nat)
    requires start < k <= limit <= |calls|
    requires forall x :: start <= x < limit ==> !calls[x].sequential
    requires forall x, y :: start <= x < y < limit ==> !Orderable(calls[x], calls[y])
    ensures GroupEnd(calls, start, k) >= limit
    decreases limit - k
  {
    if k < limit {
      GroupEndReaches(calls, start, k + 1, limit);
    }
  }

  lemma RangeSplits(i: nat, n: nat, head: seq<nat>, rest: seq<nat>)
    requires i <= n && Range(i, n) == head + rest
    ensures i + |head| <= n && head == Range(i, i + |head|) && rest == Range(i + |head|, n)
  {
    assert |Range(i, n)| == |head| + |rest|;
    forall k | 0 <= k < |head| ensures head[k] == i + k {
      assert Range(i, n)[k] == head[k];
    }
    forall k | 0 <= k < |rest| ensures rest[k] == i + |head| + k {
      assert Range(i, n)[|head| + k] == rest[k];
    }
  }

  lemma CoverHead(groups: seq<Group>, i: nat, n: nat)
    requires i < n && Flatten(groups) == Range(i, n)
    ensures groups != []
    ensures var p := i + |Indices(groups[0])|;
            p <= n && Indices(groups[0]) == Range(i, p) && Flatten(groups[1..]) == Range(p, n)
  {
    assert |Range(i, n)| > 0;
    RangeSplits(i, n, Indices(groups[0]), Flatten(groups[1..]));
  }

  lemma PartitionTail(calls: seq<Analysis>, groups: seq<Group>, i: nat, p: nat)
    requires Partition(calls, groups, i) && groups != []
    requires p <= |calls| && Flatten(groups[1..]) == Range(p, |calls|)
    ensures Indices(groups[0]) != [] && Partition(calls, groups[1..], p)
  {
    assert ValidGroup(calls, groups[0]);
  }

  lemma PartitionHead(calls: seq<Analysis>, groups: seq<Group>, i: nat) returns (p: nat)
    requires Partition(calls, groups, i) && i < |calls|
    ensures groups != [] && i < p <= |calls| && Indices(groups[0]) == Range(i, p)
    ensures Partition(calls, groups[1..], p)
  {
    CoverHead(groups, i, |calls|);
    p := i + |Indices(groups[0])|;
    PartitionTail(calls, groups, i, p);
  }

  lemma {:induction false} GreedyStaysAhead(calls: seq<Analysis>, groups: seq<Group>, i: nat, q: nat)
    requires Partition(calls, groups, i) && i <= q <= |calls|
    ensures |Groups(calls, q)| <= |groups|
    decreases |groups|
  {
    if q < |calls| {
      var p := PartitionHead(calls, groups, i);
      if p <= q {
        GreedyStaysAhead(calls, groups[1..], p, q);
      } else {
        assert ValidGroup(calls, groups[0]);
        assert Indices(groups[0])[q - i] == q;
        if calls[q].sequential {
          assert groups[0].Sequential?;
          GreedyStaysAhead(calls, groups[1..], p, q + 1);
        } else {
          forall x | q <= x < p ensures !calls[x].sequential {
            assert Indices(groups[0])[x - i] == x;
          }
          forall x, y | q <= x < y < p ensures !Orderable(calls[x], calls[y]) {
            assert Indices(groups[0])[x - i] == x && Indices(groups[0])[y - i] == y;
          }
          GroupEndReaches(calls, q, q + 1, p);
          GreedyStaysAhead(calls, groups[1..], p, GroupEnd(calls, q, q + 1));
        }
      }
    }
  }

  /** The planner's groups are a valid partition of the batch, and none has fewer groups. */
  lemma FewestGroups(calls: seq<Analysis>)
    ensures Partition(calls, Groups(calls, 0), 0)
    ensures forall groups :: Partition(calls, groups, 0) ==> |Groups(calls, 0)| <= |groups|
  {
    GroupsCoverBatch(calls, 0);
    GroupsAreValid(calls, 0);
    forall groups | Partition(calls, groups, 0) ensures |Groups(calls, 0)| <= |groups| {
      GreedyStaysAhead(calls, groups, 0, 0);
    }
  }

  // ----- Acceptance does not depend on the order of the batch -----

  /** Acceptance read from the bag of analysed calls. */
  ghost predicate AcceptsBag(bag: multiset<Analysis>) {
    forall a, b :: a in bag && b in bag && (a != b || bag[a] >= 2) ==> Compatible(a, b)
  }

  lemma AcceptanceOfBag(calls: seq<Analysis>)
    ensures Accepts(calls) <==> AcceptsBag(multiset(calls))
  {
    var bag := multiset(calls);
    if Accepts(calls) {
      forall a, b | a in bag && b in bag && (a != b || bag[a] >= 2) ensures Compatible(a, b) {
        ConflictIsSymmetric(a, b);
        if a == b {
          var i, j := TwoOccurrences(calls, a);
          assert Compatible(calls[i], calls[j]);
        } else {
          assert a in calls && b in calls;
          var i :| 0 <= i < |calls| && calls[i] == a;
          var j :| 0 <= j < |calls| && calls[j] == b;
          assert if i < j then Compatible(calls[i], calls[j]) else Compatible(calls[j], calls[i]);
        }
      }
    }
    if AcceptsBag(bag) {
      forall i, j | 0 <= i < j < |calls| ensures Compatible(calls[i], calls[j]) {
        assert calls[i] in bag && calls[j] in bag;
        if calls[i] == calls[j] {
          RepeatedElement(calls, i, j);
        }
      }
    }
  }

  /** Whether a batch is accepted does not depend on the order of its calls. */
  lemma {:induction false} AcceptanceIgnoresOrder(calls: seq<ToolCall>, permuted: seq<ToolCall>)
    requires multiset(calls) == multiset(permuted)
    ensures Accepts(AnalyzeAll(calls)) <==> Accepts(AnalyzeAll(permuted))
  {
    MapBag(Analyze, calls, permuted);
    assert MapAll(Analyze, calls) == AnalyzeAll(calls) && MapAll(Analyze, permuted) == AnalyzeAll(permuted);
    AcceptanceOfBag(AnalyzeAll(calls));
    AcceptanceOfBag(AnalyzeAll(permuted));
  }

  // ----- Rejected batches -----

  /** A rejected call keeps its id, name and arguments and carries the conflict of the batch. */
  datatype RejectedCall = RejectedCall(call: ToolCall, conflict: ConflictError)

  /** `rejected_tool_batch`. */
  function RejectedBatch(calls: seq<ToolCall>, error: ConflictError): Option<seq<RejectedCall>> {
    if !Recoverable(error) then None
    else Some(seq(|calls|, i requires 0 <= i < |calls| => RejectedCall(calls[i], error)))
  }

  /** The rejections are those of all the calls, in call order, for the conflict that rejects the batch. */
  ghost predicate RejectsAll(calls: seq<ToolCall>, rejected: seq<RejectedCall>) {
    |rejected| == |calls|
    && exists error ::
         RejectedFor(calls, AnalyzeAll(calls), error)
         && forall i :: 0 <= i < |calls| ==> rejected[i] == RejectedCall(calls[i], error)
  }

  /** Planning then rejecting: a batch is planned, or every one of its calls is rejected, in call order. */
  method PlanOrReject(calls: seq<ToolCall>) returns (groups: seq<Group>, rejected: seq<RejectedCall>)
    ensures Accepts(AnalyzeAll(calls)) ==> Flatten(groups) == Range(0, |calls|) && rejected == []
    ensures !Accepts(AnalyzeAll(calls)) ==> groups == [] && RejectsAll(calls, rejected)
  {
    var plan := PlanToolExecution(calls);
    if plan.Ok? {
      GroupsCoverBatch(AnalyzeAll(calls), 0);
      return plan.value, [];
    }
    return [], RejectedBatch(calls, plan.error).value;
  }
}
