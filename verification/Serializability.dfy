/**
 Running an accepted plan is serializable. A call is a program whose atomic steps work on shared
 cells and on the call's own local state; the local state ends as the call's result. The groups run
 one after the other and the steps of a group's calls interleave in any way at all.
 */
module Serializability {
  import opened Wrappers
  import opened Bags
  import opened ToolCalls
  import opened ToolPlanner
  import opened PlanProperties

  /** What the locked resources stand for. */
  datatype Cell =
    | FileCell(key: string)
    | TodoCell
    | PlanCell
    | SpecCell
    | MemoryCell(scope: string)
    | ProcessCell(process: string)
    | ExternalCell(tool: string)

  /** The workspace stands for all its files, the scope `all` for every scope, the lease for no cell. */
  predicate Covers(resource: Resource, cell: Cell) {
    match resource
    case WorkspaceMutationLease => false
    case WorkspaceFiles => cell.FileCell?
    case File(key) => cell == FileCell(key)
    case TodoGraph => cell.TodoCell?
    case Plan => cell.PlanCell?
    case ProjectSpec => cell.SpecCell?
    case Memory(scope) => cell.MemoryCell? && (scope == "all" || cell.scope == scope)
    case CommandProcess(process) => cell == ProcessCell(process)
    case ExternalTool(tool) => cell == ExternalCell(tool)
  }

  predicate MayRead(a: Analysis, cell: Cell) {
    exists l :: l in a.locks && Covers(l.resource, cell)
  }

  predicate MayWrite(a: Analysis, cell: Cell) {
    exists l :: l in a.locks && !l.access.Read? && Covers(l.resource, cell)
  }

  lemma CoveringResourcesOverlap(first: Resource, second: Resource, cell: Cell)
    requires Covers(first, cell) && Covers(second, cell)
    ensures Overlap(first, second)
  {
  }

  /** Conversely, resources that overlap stand for a common cell, the lease aside. */
  lemma OverlappingResourcesShareACell(first: Resource, second: Resource) returns (cell: Cell)
    requires Overlap(first, second) && !first.WorkspaceMutationLease? && !second.WorkspaceMutationLease?
    ensures Covers(first, cell) && Covers(second, cell)
  {
    match first
    case WorkspaceFiles => cell := FileCell(if second.File? then second.key else "");
    case File(key) => cell := FileCell(key);
    case TodoGraph => cell := TodoCell;
    case Plan => cell := PlanCell;
    case ProjectSpec => cell := SpecCell;
    case Memory(scope) => cell := MemoryCell(if scope == "all" then second.scope else scope);
    case CommandProcess(process) => cell := ProcessCell(process);
    case ExternalTool(tool) => cell := ExternalCell(tool);
  }

  /** An independent call neither writes nor reads what the other one writes. */
  lemma IndependentFootprints(a: Analysis, b: Analysis, cell: Cell)
    requires Independent(a, b) && MayWrite(a, cell)
    ensures !MayRead(b, cell) && !MayWrite(b, cell)
  {
    var l :| l in a.locks && !l.access.Read? && Covers(l.resource, cell);
    forall m | m in b.locks ensures !Covers(m.resource, cell) {
      if Covers(m.resource, cell) {
        CoveringResourcesOverlap(l.resource, m.resource, cell);
        assert Conflict(l, m);
      }
    }
  }

  // ----- Calls as programs -----

  type Store<V> = map<Cell, V>

  /** One atomic step of a call, from the shared cells and its local state to new ones. */
  type Step<!V, !L> = (Store<V>, L) -> (Store<V>, L)

  ghost predicate SameAt<V>(s: Store<V>, t: Store<V>, cell: Cell) {
    (cell in s <==> cell in t) && (cell in s ==> s[cell] == t[cell])
  }

  ghost predicate AgreeOnReads<V>(a: Analysis, s: Store<V>, t: Store<V>) {
    forall cell :: MayRead(a, cell) ==> SameAt(s, t, cell)
  }

  /** The step writes only cells locked for Write or Exclusive. */
  ghost predicate WritesConfined<V(!new), L(!new)>(a: Analysis, step: Step<V, L>) {
    forall s, local, cell :: !MayWrite(a, cell) ==> SameAt(s, step(s, local).0, cell)
  }

  /** What the step computes depends only on the cells it locks. */
  ghost predicate ReadsConfined<V(!new), L(!new)>(a: Analysis, step: Step<V, L>) {
    forall s, t, local :: AgreeOnReads(a, s, t) ==>
      step(s, local).1 == step(t, local).1
      && forall cell :: MayWrite(a, cell) ==> SameAt(step(s, local).0, step(t, local).0, cell)
  }

  ghost predicate Confined<V(!new), L(!new)>(a: Analysis, step: Step<V, L>) {
    WritesConfined(a, step) && ReadsConfined(a, step)
  }

  /** A step that writes one cell. */
  function WriteStep<V, L>(cell: Cell, value: V): Step<V, L> {
    (s: Store<V>, local: L) => (s[cell := value], local)
  }

  /** A step that looks one cell up and keeps what it finds. */
  function ReadStep<V>(cell: Cell): Step<V, Option<V>> {
    (s: Store<V>, local: Option<V>) => (s, if cell in s then Some(s[cell]) else None)
  }

  /** A call may write exactly the cells that it locks for writing. */
  lemma WriteIsConfinedIff<V(!new), L(!new)>(a: Analysis, cell: Cell, value: V, local: L)
    ensures Confined(a, WriteStep<V, L>(cell, value)) <==> MayWrite(a, cell)
  {
    var step := WriteStep<V, L>(cell, value);
    if MayWrite(a, cell) {
      forall s: Store<V>, t: Store<V>, local: L | AgreeOnReads(a, s, t)
        ensures step(s, local).1 == step(t, local).1
        ensures forall c :: MayWrite(a, c) ==> SameAt(step(s, local).0, step(t, local).0, c)
      {
        forall c | MayWrite(a, c) ensures SameAt(step(s, local).0, step(t, local).0, c) {
          assert MayRead(a, c) && SameAt(s, t, c);
        }
      }
      assert WritesConfined(a, step);
    } else {
      var none: Store<V> := map[];
      assert !SameAt(none, step(none, local).0, cell);
    }
  }

  /** A call may read exactly the cells that it locks. */
  lemma ReadIsConfinedIff<V(!new)>(a: Analysis, cell: Cell, value: V)
    ensures Confined(a, ReadStep<V>(cell)) <==> MayRead(a, cell)
  {
    var step := ReadStep<V>(cell);
    if MayRead(a, cell) {
      forall s: Store<V>, t: Store<V>, local: Option<V> | AgreeOnReads(a, s, t)
        ensures step(s, local).1 == step(t, local).1
        ensures forall c :: MayWrite(a, c) ==> SameAt(step(s, local).0, step(t, local).0, c)
      {
        assert SameAt(s, t, cell);
        assert forall c :: MayWrite(a, c) ==> MayRead(a, c);
      }
    } else {
      var none: Store<V>, one: Store<V> := map[], map[cell := value];
      assert AgreeOnReads(a, none, one);
      assert step(none, None).1 != step(one, None).1;
    }
  }

  datatype World<V, L> = World(store: Store<V>, locals: seq<L>)

  /** Call `i` takes one step. */
  function Advance<V, L>(programs: seq<Step<V, L>>, w: World<V, L>, i: nat): (r: World<V, L>)
    requires i < |programs| == |w.locals|
    ensures |r.locals| == |w.locals|
  {
    var (store, local) := programs[i](w.store, w.locals[i]);
    World(store, w.locals[i := local])
  }

  /** One step of a call: the cells and its own local state change as its program says, nothing else does. */
  lemma AdvanceMeaning<V, L>(programs: seq<Step<V, L>>, w: World<V, L>, i: nat)
    requires i < |programs| == |w.locals|
    ensures var r := Advance(programs, w, i);
            r.store == programs[i](w.store, w.locals[i]).0 && r.locals[i] == programs[i](w.store, w.locals[i]).1
            && forall j :: 0 <= j < |w.locals| && j != i ==> r.locals[j] == w.locals[j]
  {
  }

  lemma IndependentWriteCommutes<V(!new), L(!new)>(
    a: Analysis, f: Step<V, L>, b: Analysis, g: Step<V, L>, s: Store<V>, x: L, y: L)
    requires Independent(a, b) && Confined(a, f) && Confined(b, g)
    ensures f(g(s, y).0, x).1 == f(s, x).1
    ensures forall cell :: MayWrite(a, cell) ==> SameAt(f(g(s, y).0, x).0, g(f(s, x).0, y).0, cell)
  {
    var t := g(s, y).0;
    forall cell | MayRead(a, cell) ensures SameAt(t, s, cell) {
      if MayWrite(b, cell) {
        ConflictIsSymmetric(a, b);
        IndependentFootprints(b, a, cell);
      }
      assert SameAt(s, g(s, y).0, cell);
    }
    assert AgreeOnReads(a, t, s);
    forall cell | MayWrite(a, cell) ensures SameAt(f(t, x).0, g(f(s, x).0, y).0, cell) {
      IndependentFootprints(a, b, cell);
      assert SameAt(f(s, x).0, g(f(s, x).0, y).0, cell);
      assert SameAt(f(t, x).0, f(s, x).0, cell);
    }
  }

  /** Steps of independent calls commute. */
  lemma StepsCommute<V(!new), L(!new)>(
    a: Analysis, f: Step<V, L>, b: Analysis, g: Step<V, L>, s: Store<V>, x: L, y: L)
    requires Independent(a, b) && Confined(a, f) && Confined(b, g)
    ensures f(g(s, y).0, x).1 == f(s, x).1
    ensures g(f(s, x).0, y).1 == g(s, y).1
    ensures f(g(s, y).0, x).0 == g(f(s, x).0, y).0
  {
    ConflictIsSymmetric(a, b);
    IndependentWriteCommutes(a, f, b, g, s, x, y);
    IndependentWriteCommutes(b, g, a, f, s, y, x);
    var fg, gf := f(g(s, y).0, x).0, g(f(s, x).0, y).0;
    forall cell ensures SameAt(fg, gf, cell) {
      if !MayWrite(a, cell) && !MayWrite(b, cell) {
        assert SameAt(s, f(s, x).0, cell) && SameAt(f(s, x).0, gf, cell);
        assert SameAt(s, g(s, y).0, cell) && SameAt(g(s, y).0, fg, cell);
      }
    }
    assert fg == gf by {
      assert forall cell :: cell in fg <==> cell in gf by {
        forall cell ensures cell in fg <==> cell in gf { assert SameAt(fg, gf, cell); }
      }
      forall cell | cell in fg ensures fg[cell] == gf[cell] { assert SameAt(fg, gf, cell); }
    }
  }

  // ----- Schedules -----

  predicate InBatch(schedule: seq<nat>, n: nat) {
    forall k :: 0 <= k < |schedule| ==> schedule[k] < n
  }

  /** A schedule lists, step by step, which call advances. */
  function Run<V, L>(programs: seq<Step<V, L>>, schedule: seq<nat>, w: World<V, L>): (r: World<V, L>)
    requires |programs| == |w.locals| && InBatch(schedule, |programs|)
    ensures |r.locals| == |w.locals|
  {
    if schedule == [] then w else Run(programs, schedule[1..], Advance(programs, w, schedule[0]))
  }

  lemma RunOfOne<V, L>(programs: seq<Step<V, L>>, i: nat, w: World<V, L>)
    requires i < |programs| == |w.locals|
    ensures Run(programs, [], w) == w && Run(programs, [i], w) == Advance(programs, w, i)
  {
  }

  /** Calls `i` and `j` can swap adjacent steps in every world. */
  ghost predicate Commute<V(!new), L(!new)>(programs: seq<Step<V, L>>, i: nat, j: nat)
    requires i < |programs| && j < |programs|
  {
    forall w: World<V, L> :: |w.locals| == |programs| ==> CommuteAt(programs, i, j, w)
  }

  ghost predicate CommuteAt<V, L>(programs: seq<Step<V, L>>, i: nat, j: nat, w: World<V, L>)
    requires i < |programs| == |w.locals| && j < |programs|
  {
    Advance(programs, Advance(programs, w, i), j) == Advance(programs, Advance(programs, w, j), i)
  }

  lemma AdvancesCommute<V(!new), L(!new)>(
    a: Analysis, b: Analysis, programs: seq<Step<V, L>>, i: nat, j: nat, w: World<V, L>)
    requires i < |programs| && j < |programs| && i != j && |w.locals| == |programs|
    requires Independent(a, b) && Confined(a, programs[i]) && Confined(b, programs[j])
    ensures CommuteAt(programs, i, j, w)
  {
    var f, g, x, y := programs[i], programs[j], w.locals[i], w.locals[j];
    var x', y' := f(w.store, x).1, g(w.store, y).1;
    StepsCommute(a, f, b, g, w.store, x, y);
    assert w.locals[i := x'][j] == y && w.locals[j := y'][i] == x;
    assert w.locals[i := x'][j := y'] == w.locals[j := y'][i := x'];
  }

  lemma IndependentCallsCommute<V(!new), L(!new)>(calls: seq<Analysis>, programs: seq<Step<V, L>>, i: nat, j: nat)
    requires i < |calls| == |programs| && j < |calls| && i != j
    requires Independent(calls[i], calls[j]) && Confined(calls[i], programs[i]) && Confined(calls[j], programs[j])
    ensures Commute(programs, i, j)
  {
    forall w: World<V, L> | |w.locals| == |programs| ensures CommuteAt(programs, i, j, w) {
      AdvancesCommute(calls[i], calls[j], programs, i, j, w);
    }
  }

  ghost predicate AllCommute<V(!new), L(!new)>(programs: seq<Step<V, L>>, schedule: seq<nat>) {
    InBatch(schedule, |programs|)
    && forall i, j :: i in schedule && j in schedule && i < |programs| && j < |programs| && i != j ==>
         Commute(programs, i, j)
  }

  lemma AllCommuteSubset<V(!new), L(!new)>(programs: seq<Step<V, L>>, schedule: seq<nat>, part: seq<nat>)
    requires AllCommute(programs, schedule)
    requires forall k :: 0 <= k < |part| ==> part[k] in schedule
    ensures AllCommute(programs, part)
  {
  }

  lemma RunFirst<V, L>(programs: seq<Step<V, L>>, i: nat, rest: seq<nat>, w: World<V, L>)
    requires |programs| == |w.locals| && i < |programs| && InBatch(rest, |programs|)
    ensures InBatch([i] + rest, |programs|)
    ensures Run(programs, [i] + rest, w) == Run(programs, rest, Advance(programs, w, i))
  {
    assert ([i] + rest)[1..] == rest;
  }

  lemma PairCommutes<V(!new), L(!new)>(programs: seq<Step<V, L>>, schedule: seq<nat>, k: nat, l: nat, w: World<V, L>)
    requires |programs| == |w.locals| && AllCommute(programs, schedule) && k < |schedule| && l < |schedule|
    ensures CommuteAt(programs, schedule[k], schedule[l], w)
  {
    assert schedule[k] in schedule && schedule[l] in schedule;
  }

  lemma RemoveFromTail(schedule: seq<nat>, k: nat)
    requires 0 < k < |schedule|
    ensures RemoveAt(schedule, k) == [schedule[0]] + RemoveAt(schedule[1..], k - 1)
    ensures schedule[1..][k - 1] == schedule[k]
  {
  }

  /** The step at position `k` can be taken first. */
  lemma {:induction false} MoveToFront<V(!new), L(!new)>(
    programs: seq<Step<V, L>>, schedule: seq<nat>, k: nat, w: World<V, L>)
    requires |programs| == |w.locals| && AllCommute(programs, schedule) && k < |schedule|
    ensures InBatch(RemoveAt(schedule, k), |programs|)
    ensures Run(programs, schedule, w) == Run(programs, RemoveAt(schedule, k), Advance(programs, w, schedule[k]))
    decreases k
  {
    var tail := schedule[1..];
    if k == 0 {
      assert RemoveAt(schedule, k) == tail;
    } else {
      var i, j := schedule[0], schedule[k];
      AllCommuteSubset(programs, schedule, tail);
      RemoveFromTail(schedule, k);
      MoveToFront(programs, tail, k - 1, Advance(programs, w, i));
      PairCommutes(programs, schedule, 0, k, w);
      RunFirst(programs, i, RemoveAt(tail, k - 1), Advance(programs, w, j));
    }
  }

  /** Schedules with the same steps of pairwise commuting calls end in the same world. */
  lemma {:induction false} PermutedSchedule<V(!new), L(!new)>(
    programs: seq<Step<V, L>>, schedule: seq<nat>, other: seq<nat>, w: World<V, L>)
    requires |programs| == |w.locals| && AllCommute(programs, schedule)
    requires multiset(schedule) == multiset(other)
    ensures InBatch(other, |programs|)
    ensures Run(programs, schedule, w) == Run(programs, other, w)
    decreases |schedule|
  {
    forall k | 0 <= k < |other| ensures other[k] in schedule && other[k] < |programs| {
      assert other[k] in multiset(schedule);
    }
    if schedule == [] {
      assert |multiset(other)| == |other|;
    } else {
      var k := RemoveFromBoth(schedule, other);
      AllCommuteSubset(programs, schedule, other);
      MoveToFront(programs, other, k, w);
      AllCommuteSubset(programs, schedule, schedule[1..]);
      PermutedSchedule(programs, schedule[1..], RemoveAt(other, k), Advance(programs, w, schedule[0]));
    }
  }

  lemma {:induction false} RunConcat<V, L>(programs: seq<Step<V, L>>, a: seq<nat>, b: seq<nat>, w: World<V, L>)
    requires |programs| == |w.locals| && InBatch(a, |programs|) && InBatch(b, |programs|)
    ensures InBatch(a + b, |programs|)
    ensures Run(programs, a + b, w) == Run(programs, b, Run(programs, a, w))
    decreases |a|
  {
    if a == [] {
      assert a + b == b;
    } else {
      assert (a + b)[1..] == a[1..] + b;
      RunConcat(programs, a[1..], b, Advance(programs, w, a[0]));
    }
  }

  // ----- Plans -----

  function Repeat(i: nat, count: nat): (r: seq<nat>)
    ensures |r| == count && forall k :: 0 <= k < count ==> r[k] == i
  {
    seq(count, _ => i)
  }

  /** The listed calls run one after the other, call `i` taking `counts[i]` steps. */
  function Serial(indices: seq<nat>, counts: seq<nat>): (r: seq<nat>)
    requires InBatch(indices, |counts|)
    ensures forall k :: 0 <= k < |r| ==> r[k] in indices
    ensures InBatch(r, |counts|)
  {
    if indices == [] then [] else Repeat(indices[0], counts[indices[0]]) + Serial(indices[1..], counts)
  }

  lemma SerialFirst(i: nat, rest: seq<nat>, counts: seq<nat>)
    requires i < |counts| && InBatch(rest, |counts|)
    ensures InBatch([i] + rest, |counts|)
    ensures Serial([i] + rest, counts) == Repeat(i, counts[i]) + Serial(rest, counts)
  {
    assert ([i] + rest)[1..] == rest;
  }

  lemma {:induction false} SerialConcat(a: seq<nat>, b: seq<nat>, counts: seq<nat>)
    requires InBatch(a, |counts|) && InBatch(b, |counts|)
    ensures InBatch(a + b, |counts|)
    ensures Serial(a + b, counts) == Serial(a, counts) + Serial(b, counts)
    decreases |a|
  {
    if a == [] {
      assert a + b == b;
    } else {
      assert a + b == [a[0]] + (a[1..] + b);
      SerialConcat(a[1..], b, counts);
      SerialFirst(a[0], a[1..] + b, counts);
    }
  }

  function Concat(schedules: seq<seq<nat>>): seq<nat> {
    if schedules == [] then [] else schedules[0] + Concat(schedules[1..])
  }

  /** Each group's schedule holds exactly the steps of its calls, in any order. */
  predicate Follows(schedules: seq<seq<nat>>, groups: seq<Group>, counts: seq<nat>) {
    |schedules| == |groups|
    && forall g :: 0 <= g < |groups| ==>
         InBatch(Indices(groups[g]), |counts|) && multiset(schedules[g]) == multiset(Serial(Indices(groups[g]), counts))
  }

  /** The schedules in which every group runs its calls one after the other. */
  function OneByOne(groups: seq<Group>, counts: seq<nat>): (r: seq<seq<nat>>)
    requires forall g :: 0 <= g < |groups| ==> InBatch(Indices(groups[g]), |counts|)
    ensures |r| == |groups| && forall g :: 0 <= g < |groups| ==> r[g] == Serial(Indices(groups[g]), counts)
  {
    seq(|groups|, g requires 0 <= g < |groups| => Serial(Indices(groups[g]), counts))
  }

  /** A schedule follows the plan exactly when each group's part is a permutation of running its calls one by one. */
  lemma FollowsIff(schedules: seq<seq<nat>>, groups: seq<Group>, counts: seq<nat>)
    requires forall g :: 0 <= g < |groups| ==> InBatch(Indices(groups[g]), |counts|)
    ensures Follows(OneByOne(groups, counts), groups, counts)
    ensures Follows(schedules, groups, counts) <==>
            |schedules| == |groups|
            && forall g :: 0 <= g < |groups| ==> multiset(schedules[g]) == multiset(OneByOne(groups, counts)[g])
  {
  }

  /** Every call of a group commutes with the others. */
  ghost predicate GroupsCommute<V(!new), L(!new)>(programs: seq<Step<V, L>>, groups: seq<Group>) {
    forall g :: 0 <= g < |groups| ==> AllCommute(programs, Indices(groups[g]))
  }

  lemma {:induction false} GroupByGroup<V(!new), L(!new)>(
    programs: seq<Step<V, L>>, groups: seq<Group>, schedules: seq<seq<nat>>, counts: seq<nat>, w: World<V, L>)
    requires |programs| == |w.locals| == |counts|
    requires GroupsCommute(programs, groups) && Follows(schedules, groups, counts)
    ensures InBatch(Flatten(groups), |counts|) && InBatch(Concat(schedules), |programs|)
    ensures Run(programs, Concat(schedules), w) == Run(programs, Serial(Flatten(groups), counts), w)
    decreases |groups|
  {
    if groups != [] {
      var indices := Indices(groups[0]);
      var serial := Serial(indices, counts);
      assert AllCommute(programs, indices);
      AllCommuteSubset(programs, indices, serial);
      PermutedSchedule(programs, serial, schedules[0], w);
      GroupByGroup(programs, groups[1..], schedules[1..], counts, Run(programs, serial, w));
      RunConcat(programs, schedules[0], Concat(schedules[1..]), w);
      SerialConcat(indices, Flatten(groups[1..]), counts);
      RunConcat(programs, serial, Serial(Flatten(groups[1..]), counts), w);
    }
  }

  /** Calls that may run in parallel keep to their declared locks; sequential calls may do anything. */
  ghost predicate ParallelCallsConfined<V(!new), L(!new)>(calls: seq<Analysis>, programs: seq<Step<V, L>>)
    requires |calls| == |programs|
  {
    forall i :: 0 <= i < |calls| && !calls[i].sequential ==> Confined(calls[i], programs[i])
  }

  lemma PlannedGroupsCommute<V(!new), L(!new)>(calls: seq<Analysis>, programs: seq<Step<V, L>>)
    requires |calls| == |programs|
    requires Accepts(calls) && ParallelCallsConfined(calls, programs)
    ensures GroupsCommute(programs, Groups(calls, 0))
  {
    var groups := Groups(calls, 0);
    GroupsAreValid(calls, 0);
    forall g | 0 <= g < |groups| ensures AllCommute(programs, Indices(groups[g])) {
      var indices := Indices(groups[g]);
      assert ValidGroup(calls, groups[g]);
      forall i, j | i in indices && j in indices && i != j
        ensures i < |programs| && j < |programs| && Commute(programs, i, j)
      {
        var x :| 0 <= x < |indices| && indices[x] == i;
        var y :| 0 <= y < |indices| && indices[y] == j;
        GroupMembersAreIndependent(calls, groups[g], x, y);
        IndependentCallsCommute(calls, programs, i, j);
      }
    }
  }

  /**
   Serializability. If every call that may run in parallel keeps to its declared locks, then any
   interleaving inside the groups of an accepted plan ends with the same cells and the same
   per-call results as running the calls one by one in batch order.
   */
  lemma AcceptedPlansAreSerializable<V(!new), L(!new)>(
    calls: seq<Analysis>, programs: seq<Step<V, L>>, counts: seq<nat>, schedules: seq<seq<nat>>, w: World<V, L>)
    requires |calls| == |programs| == |counts| == |w.locals|
    requires Accepts(calls) && ParallelCallsConfined(calls, programs)
    requires Follows(schedules, Groups(calls, 0), counts)
    ensures InBatch(Concat(schedules), |programs|)
    ensures Run(programs, Concat(schedules), w) == Run(programs, Serial(Range(0, |calls|), counts), w)
  {
    PlannedGroupsCommute(calls, programs);
    GroupsCoverBatch(calls, 0);
    GroupByGroup(programs, Groups(calls, 0), schedules, counts, w);
  }

  /** The same, from the planner's entry point: whatever plan it returns may be run in any of these ways. */
  method PlanIsSerializable<V(!new), L(!new)>(
    batch: seq<ToolCall>, ghost programs: seq<Step<V, L>>, ghost counts: seq<nat>, ghost w: World<V, L>)
    returns (plan: Result<seq<Group>, ConflictError>)
    requires |batch| == |programs| == |counts| == |w.locals|
    requires ParallelCallsConfined(AnalyzeAll(batch), programs)
    ensures plan.Ok? ==>
              forall schedules :: Follows(schedules, plan.value, counts) ==>
                InBatch(Concat(schedules), |programs|)
                && Run(programs, Concat(schedules), w) == Run(programs, Serial(Range(0, |batch|), counts), w)
  {
    plan := PlanToolExecution(batch);
    if plan.Ok? {
      forall schedules | Follows(schedules, plan.value, counts)
        ensures InBatch(Concat(schedules), |programs|)
        ensures Run(programs, Concat(schedules), w) == Run(programs, Serial(Range(0, |batch|), counts), w)
      {
        AcceptedPlansAreSerializable(AnalyzeAll(batch), programs, counts, schedules, w);
      }
    }
  }
}
