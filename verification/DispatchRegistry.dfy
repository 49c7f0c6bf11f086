/** The registry of running plan-phase dispatches and its leases (app/plan_runtime.rs). */
module DispatchRegistry {
  import opened Wrappers

  /** The number of the watch channel shared by a registered run and its lease. */
  type Channel = nat

  datatype RunControl = RunControl(planId: string, channel: Channel)

  datatype Lease = Lease(attemptId: string, planId: string, channel: Channel)

  /** `deadline` is what parsing the deadline and comparing it with the clock gave. */
  datatype Deadline = InvalidDeadline | Expired | Remaining

  datatype RegisterError = BadDeadline | ReservationExpired | AlreadyRegistered

  /**
   Registered runs by attempt id, the last message of every channel ever opened (none before the
   first cancellation), and the leases still held by their owners.
   */
  datatype State = State(runs: map<string, RunControl>, channels: seq<Option<string>>, live: set<Lease>)

  const EMPTY := State(map[], [], {})

  /** The registered runs are the live leases, one per attempt, each with a channel of its own. */
  ghost predicate Valid(s: State) {
    (forall a :: a in s.runs ==> Lease(a, s.runs[a].planId, s.runs[a].channel) in s.live)
    && (forall lease :: lease in s.live ==>
          lease.attemptId in s.runs && s.runs[lease.attemptId] == RunControl(lease.planId, lease.channel))
    && (forall lease :: lease in s.live ==> lease.channel < |s.channels|)
    && (forall p, q :: p in s.live && q in s.live && p.channel == q.channel ==> p == q)
  }

  predicate Signalled(s: State, channel: Channel) {
    channel < |s.channels| && s.channels[channel].Some?
  }

  // ----- The operations on the state -----

  function RegisterResult(
    s: State, attemptId: string, planId: string, deadline: Deadline): Result<Lease, RegisterError>
  {
    if deadline.InvalidDeadline? then Err(BadDeadline)
    else if deadline.Expired? then Err(ReservationExpired)
    else if attemptId in s.runs then Err(AlreadyRegistered)
    else Ok(Lease(attemptId, planId, |s.channels|))
  }

  function AfterRegister(s: State, attemptId: string, planId: string, deadline: Deadline): State {
    match RegisterResult(s, attemptId, planId, deadline)
    case Err(_) => s
    case Ok(lease) =>
      State(s.runs[attemptId := RunControl(planId, lease.channel)], s.channels + [None], s.live + {lease})
  }

  /** The channels a cancellation of `planId` writes to. */
  ghost predicate Reaches(s: State, planId: string, channel: Channel) {
    exists a :: a in s.runs && s.runs[a] == RunControl(planId, channel)
  }

  ghost function AfterCancel(s: State, planId: string, reason: string): State {
    s.(channels := seq(|s.channels|, c requires 0 <= c < |s.channels| =>
                         if Reaches(s, planId, c) then Some(reason) else s.channels[c]))
  }

  function AfterDrop(s: State, lease: Lease): State {
    s.(runs := s.runs - {lease.attemptId}, live := s.live - {lease})
  }

  lemma RegisterKeepsValid(s: State, attemptId: string, planId: string, deadline: Deadline)
    requires Valid(s)
    ensures Valid(AfterRegister(s, attemptId, planId, deadline))
  {
  }

  /** Dropping a lease frees exactly its own attempt. */
  lemma DropRemovesOnlyItsOwn(s: State, lease: Lease)
    requires Valid(s) && lease in s.live
    ensures Valid(AfterDrop(s, lease))
    ensures forall other :: other in s.live && other != lease ==>
              other.attemptId in AfterDrop(s, lease).runs
              && AfterDrop(s, lease).runs[other.attemptId] == s.runs[other.attemptId]
    ensures lease.attemptId !in AfterDrop(s, lease).runs
  {
  }

  /** A cancellation signals the live leases of its plan and nobody else. */
  lemma CancelSignalsExactlyThePlan(s: State, planId: string, reason: string)
    requires Valid(s)
    ensures Valid(AfterCancel(s, planId, reason))
    ensures forall c :: 0 <= c < |s.channels| ==>
              AfterCancel(s, planId, reason).channels[c] ==
              if exists lease :: lease in s.live && lease.channel == c && lease.planId == planId
              then Some(reason) else s.channels[c]
  {
  }

  // ----- Whole runs -----

  datatype Operation =
    | Register(attemptId: string, planId: string, deadline: Deadline)
    | Cancel(planId: string, reason: string)
    | Drop(lease: Lease)

  /** A lease is dropped once, by its owner. */
  predicate Enabled(s: State, op: Operation) {
    op.Drop? ==> op.lease in s.live
  }

  ghost function After(s: State, op: Operation): State {
    match op
    case Register(attemptId, planId, deadline) => AfterRegister(s, attemptId, planId, deadline)
    case Cancel(planId, reason) => AfterCancel(s, planId, reason)
    case Drop(lease) => AfterDrop(s, lease)
  }

  ghost predicate IsRun(states: seq<State>, ops: seq<Operation>) {
    |states| == |ops| + 1 && states[0] == EMPTY
    && forall i :: 0 <= i < |ops| ==> Enabled(states[i], ops[i]) && states[i + 1] == After(states[i], ops[i])
  }

  /** In every reachable state the registered runs are the live leases, one per attempt. */
  lemma {:induction false} RunsKeepValid(states: seq<State>, ops: seq<Operation>, i: nat)
    requires IsRun(states, ops) && i < |states|
    ensures Valid(states[i])
  {
    if i > 0 {
      RunsKeepValid(states, ops, i - 1);
      match ops[i - 1]
      case Register(attemptId, planId, deadline) => RegisterKeepsValid(states[i - 1], attemptId, planId, deadline);
      case Cancel(planId, reason) => CancelSignalsExactlyThePlan(states[i - 1], planId, reason);
      case Drop(lease) => DropRemovesOnlyItsOwn(states[i - 1], lease);
    }
  }

  /** A signalled lease stays signalled for the rest of the run. */
  lemma {:induction false} SignalsArePermanent(
    states: seq<State>, ops: seq<Operation>, i: nat, j: nat, channel: Channel)
    requires IsRun(states, ops) && i <= j < |states| && Signalled(states[i], channel)
    ensures Signalled(states[j], channel)
    decreases j - i
  {
    if i < j {
      assert states[i + 1] == After(states[i], ops[i]);
      SignalsArePermanent(states, ops, i + 1, j, channel);
    }
  }

  /** The operation is a cancellation that reaches a live lease on the channel. */
  ghost predicate SignalledBy(s: State, op: Operation, lease: Lease, channel: Channel) {
    op.Cancel? && lease in s.live && lease.channel == channel && lease.planId == op.planId
  }

  lemma SignalOfOneStep(s: State, op: Operation, channel: Channel) returns (cause: Option<Lease>)
    requires Valid(s) && Signalled(After(s, op), channel)
    ensures cause.Some? ==>
              SignalledBy(s, op, cause.value, channel) && After(s, op).channels[channel] == Some(op.reason)
    ensures cause.None? ==> Signalled(s, channel) && s.channels[channel] == After(s, op).channels[channel]
  {
    cause := None;
    if op.Cancel? {
      CancelSignalsExactlyThePlan(s, op.planId, op.reason);
      if lease :| lease in s.live && lease.channel == channel && lease.planId == op.planId {
        cause := Some(lease);
      }
    }
  }

  /** A channel holds a message only if some cancellation reached its lease while that lease was live. */
  lemma {:induction false} SignalsHaveACause(states: seq<State>, ops: seq<Operation>, j: nat, channel: Channel)
    returns (i: nat, lease: Lease)
    requires IsRun(states, ops) && j < |states| && Signalled(states[j], channel)
    ensures i < j && SignalledBy(states[i], ops[i], lease, channel)
    ensures states[j].channels[channel] == Some(ops[i].reason)
  {
    assert j > 0;
    assert states[j] == After(states[j - 1], ops[j - 1]);
    RunsKeepValid(states, ops, j - 1);
    var cause := SignalOfOneStep(states[j - 1], ops[j - 1], channel);
    if cause.Some? {
      return j - 1, cause.value;
    }
    i, lease := SignalsHaveACause(states, ops, j - 1, channel);
  }

  // ----- The registry object -----

  class Registry {
    var runs: map<string, RunControl>
    var channels: seq<Option<string>>
    ghost var live: set<Lease>

    ghost function Abstract(): State
      reads this
    {
      State(runs, channels, live)
    }

    constructor ()
      ensures Abstract() == EMPTY && Valid(Abstract())
    {
      runs := map[];
      channels := [];
      live := {};
    }

    /** A failed registration changes nothing. */
    method RegisterRun(attemptId: string, planId: string, deadline: Deadline) returns (r: Result<Lease, RegisterError>)
      requires Valid(Abstract())
      modifies this
      ensures r == RegisterResult(old(Abstract()), attemptId, planId, deadline)
      ensures Abstract() == AfterRegister(old(Abstract()), attemptId, planId, deadline)
      ensures Valid(Abstract())
      // When it succeeds, with which lease, and why it fails.
      ensures r.Ok? <==> deadline == Remaining && attemptId !in old(runs)
      ensures r.Ok? ==>
                r.value.attemptId == attemptId && r.value.planId == planId && r.value !in old(live)
                && live == old(live) + {r.value} && !Signalled(Abstract(), r.value.channel)
                && channels[..|old(channels)|] == old(channels)
      ensures r == Err(AlreadyRegistered) <==> deadline == Remaining && attemptId in old(runs)
      ensures r == Err(ReservationExpired) <==> deadline == Expired
    {
      if deadline.InvalidDeadline? {
        return Err(BadDeadline);
      }
      if deadline.Expired? {
        return Err(ReservationExpired);
      }
      if attemptId in runs {
        return Err(AlreadyRegistered);
      }
      RegisterKeepsValid(Abstract(), attemptId, planId, deadline);
      var lease := Lease(attemptId, planId, |channels|);
      channels := channels + [None];
      runs := runs[attemptId := RunControl(planId, lease.channel)];
      live := live + {lease};
      return Ok(lease);
    }

    /** Visits the registered runs in any order. */
    method CancelPlan(planId: string, reason: string)
      requires Valid(Abstract())
      modifies this`channels
      ensures Abstract() == AfterCancel(old(Abstract()), planId, reason)
      ensures Valid(Abstract())
    {
      ghost var before := Abstract();
      CancelSignalsExactlyThePlan(before, planId, reason);
      var pending := runs.Keys;
      while pending != {}
        invariant pending <= runs.Keys && |channels| == |before.channels|
        invariant forall c :: 0 <= c < |channels| ==>
          channels[c]
          == if exists a :: a in runs.Keys - pending && runs[a] == RunControl(planId, c) then Some(reason)
             else before.channels[c]
      {
        var attempt :| attempt in pending;
        var control := runs[attempt];
        assert Lease(attempt, control.planId, control.channel) in live;
        ghost var visited := channels;
        if control.planId == planId {
          channels := channels[control.channel := Some(reason)];
        }
        pending := pending - {attempt};
      }
    }

    /** Dropping the lease. */
    method DropLease(lease: Lease)
      requires Valid(Abstract()) && lease in live
      modifies this`runs, this`live
      ensures Abstract() == AfterDrop(old(Abstract()), lease)
      ensures Valid(Abstract())
    {
      DropRemovesOnlyItsOwn(Abstract(), lease);
      runs := runs - {lease.attemptId};
      live := live - {lease};
    }
  }
}
