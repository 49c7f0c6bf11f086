/**
 The event-forwarding executor (agent/executor.rs) as a machine whose scheduler is free: the task,
 whoever holds its emitter, the select loop and the sink take their steps in any order.
 */
module RunExecutor {
  import opened Wrappers

  datatype Outcome =
    | Completed(text: string)
    | Failed(message: string, retryable: bool)
    | Cancelled(message: string)
    | Suspended

  /** What the executor has decided to return. */
  datatype Decision = Own(outcome: Outcome) | SinkFailure(message: string)

  /** Where the select loop stands. Between its decision and its return the channel is still open. */
  datatype Phase =
    | Selecting
    | Draining(outcome: Outcome)
    | AwaitingTask
    | Returning(decision: Decision)
    | Returned(decision: Decision)

  /**
   `emitted` are the events accepted by the channel, `queue` those not yet received, `handed` those
   given to the sink. `finished` is the task's outcome once it has one, `atFinish` how many events
   had been emitted by then. `rejected` tells whether the sink refused the last event handed to it.
   */
  datatype State<E> = State(
    phase: Phase,
    emitted: seq<E>,
    queue: seq<E>,
    handed: seq<E>,
    rejected: bool,
    cancelled: bool,
    emitterOpen: bool,
    finished: Option<Outcome>,
    atFinish: nat)

  function Start<E>(): State<E> {
    State(Selecting, [], [], [], false, false, true, None, 0)
  }

  predicate Decided<E>(s: State<E>) {
    s.phase.Returning? || s.phase.Returned?
  }

  datatype Action<E> =
    | Emit(event: E)
    | CloseEmitter
    | Finish(result: Outcome)
    | CancelFromOutside
    | SelectTask
    | SelectEvent(refusal: Option<string>)
    | SelectClosed
    | DrainEvent(refusal: Option<string>)
    | DrainEmpty
    | AwaitTask
    | Return

  /** Which steps can be taken. A send after the loop returned finds the channel closed and emits nothing. */
  predicate Enabled<E>(s: State<E>, a: Action<E>) {
    match a
    case Emit(_) => s.emitterOpen && !s.phase.Returned?
    case CloseEmitter => s.emitterOpen
    case Finish(_) => s.finished.None? && !Decided(s)
    case CancelFromOutside => true
    case SelectTask => s.phase.Selecting? && s.finished.Some?
    case SelectEvent(_) => s.phase.Selecting? && s.queue != []
    case SelectClosed => s.phase.Selecting? && s.queue == [] && !s.emitterOpen
    case DrainEvent(_) => s.phase.Draining? && s.queue != []
    case DrainEmpty => s.phase.Draining? && s.queue == []
    case AwaitTask => s.phase.AwaitingTask? && s.finished.Some?
    case Return => s.phase.Returning?
  }

  /** Hands the oldest queued event to the sink; a refusal cancels the run and ends the loop. */
  function HandOver<E>(s: State<E>, refusal: Option<string>): State<E>
    requires s.queue != []
  {
    var given := s.(queue := s.queue[1..], handed := s.handed + [s.queue[0]]);
    if refusal.None? then given
    else given.(rejected := true, cancelled := true, phase := Returning(SinkFailure(refusal.value)))
  }

  function Next<E>(s: State<E>, a: Action<E>): State<E>
    requires Enabled(s, a)
  {
    match a
    case Emit(event) => s.(emitted := s.emitted + [event], queue := s.queue + [event])
    case CloseEmitter => s.(emitterOpen := false)
    case Finish(result) => s.(finished := Some(result), atFinish := |s.emitted|)
    case CancelFromOutside => s.(cancelled := true)
    case SelectTask => s.(phase := Draining(s.finished.value))
    case SelectEvent(refusal) => HandOver(s, refusal)
    case SelectClosed => s.(phase := AwaitingTask)
    case DrainEvent(refusal) => HandOver(s, refusal)
    case DrainEmpty => s.(phase := Returning(Own(s.phase.outcome)))
    case AwaitTask => s.(phase := Returning(Own(s.finished.value)))
    case Return => s.(phase := Returned(s.phase.decision))
  }

  /** What every step keeps. */
  ghost predicate Invariant<E>(s: State<E>) {
    s.emitted == s.handed + s.queue
    && (s.rejected <==> Decided(s) && s.phase.decision.SinkFailure?)
    && (s.rejected ==> s.cancelled && s.handed != [])
    && (s.finished.Some? ==> s.atFinish <= |s.emitted|)
    && (s.phase.Draining? ==> s.finished == Some(s.phase.outcome))
    && (s.phase.AwaitingTask? ==> s.queue == [] && !s.emitterOpen)
    && (Decided(s) && s.phase.decision.Own? ==>
          s.finished == Some(s.phase.decision.outcome) && s.atFinish <= |s.handed|)
  }

  lemma StepKeepsInvariant<E>(s: State<E>, a: Action<E>)
    requires Invariant(s) && Enabled(s, a)
    ensures Invariant(Next(s, a))
  {
  }

  ghost predicate IsRun<E(!new)>(states: seq<State<E>>, actions: seq<Action<E>>) {
    |states| == |actions| + 1 && states[0] == Start()
    && forall i :: 0 <= i < |actions| ==> Enabled(states[i], actions[i]) && states[i + 1] == Next(states[i], actions[i])
  }

  lemma {:induction false} RunsKeepInvariant<E(!new)>(states: seq<State<E>>, actions: seq<Action<E>>, i: nat)
    requires IsRun(states, actions) && i < |states|
    ensures Invariant(states[i])
  {
    if i > 0 {
      RunsKeepInvariant(states, actions, i - 1);
      StepKeepsInvariant(states[i - 1], actions[i - 1]);
    }
  }

  /** In every schedule the sink sees the emitted events in order, without gaps. */
  lemma HandedIsPrefixOfEmitted<E(!new)>(states: seq<State<E>>, actions: seq<Action<E>>, i: nat)
    requires IsRun(states, actions) && i < |states|
    ensures states[i].handed <= states[i].emitted
  {
    RunsKeepInvariant(states, actions, i);
  }

  /**
   When the executor returns the task's own outcome, everything emitted up to its completion was
   delivered and accepted, and what was delivered is the beginning of what was emitted.
   */
  lemma OwnOutcomeMeansAllDelivered<E(!new)>(states: seq<State<E>>, actions: seq<Action<E>>, i: nat)
    requires IsRun(states, actions) && i < |states| && Decided(states[i]) && states[i].phase.decision.Own?
    ensures states[i].finished == Some(states[i].phase.decision.outcome)
    ensures states[i].atFinish <= |states[i].handed|
    ensures states[i].handed <= states[i].emitted && !states[i].rejected
  {
    RunsKeepInvariant(states, actions, i);
  }

  /** The outcome a caller sees. */
  function Result<E>(s: State<E>): Outcome
    requires Decided(s)
  {
    match s.phase.decision
    case Own(outcome) => outcome
    case SinkFailure(message) => Failed(message, false)
  }

  /**
   Once the loop has decided, nothing is delivered any more and the result stands; once it has
   returned, nothing is emitted.
   */
  lemma {:induction false} ReturnIsFinal<E(!new)>(states: seq<State<E>>, actions: seq<Action<E>>, i: nat, j: nat)
    requires IsRun(states, actions) && i <= j < |states| && Decided(states[i])
    ensures Decided(states[j]) && Result(states[j]) == Result(states[i])
    ensures states[j].handed == states[i].handed && states[i].emitted <= states[j].emitted
    ensures states[i].phase.Returned? ==> states[j].phase.Returned? && states[j].emitted == states[i].emitted
    ensures states[i].cancelled ==> states[j].cancelled
    decreases j - i
  {
    if i < j {
      assert Enabled(states[i], actions[i]) && states[i + 1] == Next(states[i], actions[i]);
      ReturnIsFinal(states, actions, i + 1, j);
    }
  }

  /** Events sent between the decision and the return are lost, and only these: the queue was empty at the decision. */
  lemma OnlyLateEventsAreLost<E(!new)>(states: seq<State<E>>, actions: seq<Action<E>>, i: nat, j: nat)
    requires IsRun(states, actions) && i < j < |states|
    requires actions[i].DrainEmpty? || actions[i].AwaitTask?
    ensures states[j].handed == states[i].emitted
    ensures (states[j].handed == states[j].emitted) <==> (states[j].emitted == states[i].emitted)
  {
    RunsKeepInvariant(states, actions, i);
    assert Enabled(states[i], actions[i]) && states[i + 1] == Next(states[i], actions[i]);
    assert states[i].handed + [] == states[i].handed;
    ReturnIsFinal(states, actions, i + 1, j);
  }

  lemma OneStep<E(!new)>(states: seq<State<E>>, actions: seq<Action<E>>, a: Action<E>)
    requires IsRun(states, actions) && Enabled(states[|actions|], a)
    ensures IsRun(states + [Next(states[|actions|], a)], actions + [a])
  {
  }

  /** Events can be delivered while the task is still running: whatever it emits, some schedule hands all of it over. */
  lemma {:induction false} EventsCanBeDelivered<E(!new)>(events: seq<E>)
    returns (states: seq<State<E>>, actions: seq<Action<E>>)
    ensures IsRun(states, actions)
    ensures var last := states[|actions|];
            last.phase.Selecting? && last.finished.None? && last.emitterOpen && last.emitted == events
            && last.handed == events && last.queue == []
    decreases |events|
  {
    if events == [] {
      states, actions := [Start()], [];
    } else {
      var event := events[|events| - 1];
      states, actions := EventsCanBeDelivered(events[..|events| - 1]);
      var sent := Next(states[|actions|], Emit(event));
      OneStep(states, actions, Emit(event));
      states, actions := states + [sent], actions + [Emit(event)];
      OneStep(states, actions, SelectEvent(None));
      states, actions := states + [Next(sent, SelectEvent(None))], actions + [SelectEvent(None)];
      assert events[..|events| - 1] + [event] == events;
    }
  }

  /** Tasks and emitters are free: they emit, hang up and complete whenever they want, with any outcome. */
  lemma TasksAreFree<E>(s: State<E>, event: E, outcome: Outcome)
    ensures Enabled(s, Emit(event)) <==> s.emitterOpen && !s.phase.Returned?
    ensures Enabled(s, CloseEmitter) <==> s.emitterOpen
    ensures Enabled(s, Finish(outcome)) <==> s.finished.None? && !s.phase.Returning? && !s.phase.Returned?
  {
  }

  /** A cancellation from outside can come at any time and leaves it to the task to end: all else goes on as before. */
  lemma CancellationStopsNothing<E>(s: State<E>, a: Action<E>)
    ensures Enabled(s, CancelFromOutside)
    ensures Next(s, CancelFromOutside).cancelled
    ensures Enabled(Next(s, CancelFromOutside), a) <==> Enabled(s, a)
    ensures Enabled(s, a) ==>
              Next(Next(s, CancelFromOutside), a).handed == Next(s, a).handed
              && Next(Next(s, CancelFromOutside), a).phase == Next(s, a).phase
  {
  }

  /** Once the task has completed, the loop always has a step to take until it has returned. */
  lemma LoopGoesOn<E>(s: State<E>)
    requires Invariant(s) && s.finished.Some? && !s.phase.Returned?
    ensures exists a: Action<E> ::
              Enabled(s, a) && (a.SelectTask? || a.DrainEvent? || a.DrainEmpty? || a.AwaitTask? || a.Return?)
  {
    var step: Action<E> :=
      match s.phase
      case Selecting => SelectTask
      case Draining(_) => if s.queue == [] then DrainEmpty else DrainEvent(None)
      case AwaitingTask => AwaitTask
      case _ => Return;
    assert Enabled(s, step);
  }

  /** When nobody holds the emitter any more, the loop waits for the task and returns its outcome. */
  lemma ClosedEmitterStillReturns<E(!new)>(outcome: Outcome) returns (states: seq<State<E>>, actions: seq<Action<E>>)
    ensures IsRun(states, actions)
    ensures states[|actions|].phase == Returned(Own(outcome)) && !states[|actions|].cancelled
  {
    var start: State<E> := Start();
    states, actions := [start], [];
    var s1 := Next(start, CloseEmitter);
    OneStep(states, actions, CloseEmitter);
    states, actions := states + [s1], actions + [CloseEmitter];
    var s2 := Next(s1, SelectClosed);
    OneStep(states, actions, SelectClosed);
    states, actions := states + [s2], actions + [SelectClosed];
    var s3 := Next(s2, Finish(outcome));
    OneStep(states, actions, Finish(outcome));
    states, actions := states + [s3], actions + [Finish(outcome)];
    var s4 := Next(s3, AwaitTask);
    OneStep(states, actions, AwaitTask);
    states, actions := states + [s4], actions + [AwaitTask];
    OneStep(states, actions, Return);
    states, actions := states + [Next(s4, Return)], actions + [Return];
  }

  /** An event sent by another holder of the emitter after the queue was found empty is never delivered. */
  lemma LateEventIsLost<E(!new)>(event: E, outcome: Outcome) returns (states: seq<State<E>>, actions: seq<Action<E>>)
    ensures IsRun(states, actions)
    ensures var last := states[|actions|];
            last.phase == Returned(Own(outcome)) && last.emitted == [event] && last.handed == []
  {
    var start: State<E> := Start();
    states, actions := [start], [];
    var s1 := Next(start, Finish(outcome));
    OneStep(states, actions, Finish(outcome));
    states, actions := states + [s1], actions + [Finish(outcome)];
    var s2 := Next(s1, SelectTask);
    OneStep(states, actions, SelectTask);
    states, actions := states + [s2], actions + [SelectTask];
    var s3 := Next(s2, DrainEmpty);
    OneStep(states, actions, DrainEmpty);
    states, actions := states + [s3], actions + [DrainEmpty];
    var s4 := Next(s3, Emit(event));
    OneStep(states, actions, Emit(event));
    states, actions := states + [s4], actions + [Emit(event)];
    OneStep(states, actions, Return);
    states, actions := states + [Next(s4, Return)], actions + [Return];
  }

  /**
   If the sink ever refuses an event, delivery stops there, the run is cancelled and the outcome is a
   failure not to be retried.
   */
  lemma RefusalEndsTheRun<E(!new)>(states: seq<State<E>>, actions: seq<Action<E>>, i: nat, j: nat)
    requires IsRun(states, actions) && i < j < |states|
    requires (actions[i].SelectEvent? || actions[i].DrainEvent?) && actions[i].refusal.Some?
    ensures states[j].cancelled
    ensures Decided(states[j]) && Result(states[j]) == Failed(actions[i].refusal.value, false)
    ensures states[j].handed == states[i].handed + [states[i].queue[0]]
  {
    assert Enabled(states[i], actions[i]) && states[i + 1] == Next(states[i], actions[i]);
    ReturnIsFinal(states, actions, i + 1, j);
  }

  /** After the task has completed, a sink that accepts receives the whole queue and the loop goes on to return. */
  lemma {:induction false} DrainDeliversEverything<E(!new)>(s: State<E>)
    returns (states: seq<State<E>>, actions: seq<Action<E>>)
    requires Invariant(s) && s.phase.Draining?
    ensures |states| == |actions| + 1 && states[0] == s && |actions| == |s.queue| + 1
    ensures forall i :: 0 <= i < |actions| ==>
              Enabled(states[i], actions[i]) && states[i + 1] == Next(states[i], actions[i])
    ensures states[|actions|].phase == Returning(Own(s.phase.outcome)) && states[|actions|].handed == s.emitted
    decreases |s.queue|
  {
    if s.queue == [] {
      states, actions := [s, Next(s, DrainEmpty)], [DrainEmpty];
      assert s.handed + [] == s.handed;
    } else {
      var a: Action<E> := DrainEvent(None);
      StepKeepsInvariant(s, a);
      var rest, later := DrainDeliversEverything(Next(s, a));
      states, actions := [s] + rest, [a] + later;
    }
  }
}
