/** Retry and repair of audited single-tool requests (app/structured_llm_outcome.rs). */
module AuditedRetry {
  import opened Wrappers

  datatype FailureKind =
    | MissingTool | Prose | WrongTool | SchemaInvalid | SemanticInvalid
    | ProviderTimeout | ProviderError | ThinkingToolChoiceIncompatible | Other

  /** One completed stream: why it failed and the HTTP status, if any. */
  datatype Failure = Failure(kind: FailureKind, status: Option<int>)

  const MAX_U32: nat := 0xFFFF_FFFF

  function Saturate(n: nat): nat {
    if n > MAX_U32 then MAX_U32 else n
  }

  function SaturatingAdd(a: nat, b: nat): nat {
    Saturate(a + b)
  }

  predicate RepairEligible(kind: FailureKind) {
    kind.MissingTool? || kind.Prose? || kind.WrongTool? || kind.SchemaInvalid? || kind.ThinkingToolChoiceIncompatible?
  }

  predicate RetryableStatus(status: Option<int>) {
    status.Some? && (status.value == 408 || status.value == 409 || status.value == 429 || 500 <= status.value <= 599)
  }

  predicate TransportRetryable(failure: Failure) {
    match failure.kind
    case ProviderTimeout => true
    case ProviderError => failure.status.None? || RetryableStatus(failure.status)
    case _ => false
  }

  datatype RetryKind = OutputRepair | ProviderRetry

  datatype Action =
    | Continue(kind: RetryKind, retryIndex: nat, repairUsed: bool)
    | Stop

  /** `next_audited_stream_action`. */
  function NextAction(failure: Failure, repairUsed: bool, used: nat, budget: nat): Action {
    if RepairEligible(failure.kind) && !repairUsed then Continue(OutputRepair, 0, true)
    else if TransportRetryable(failure) && used < budget then
      Continue(ProviderRetry, SaturatingAdd(used, 1), repairUsed)
    else Stop
  }

  /** Statuses that are worth another try; a provider error without a status counts as a lost connection. */
  predicate WorthRetrying(failure: Failure) {
    failure.kind == ProviderTimeout
    || (failure.kind == ProviderError
        && (failure.status.None? || failure.status.value in {408, 409, 429} || failure.status.value / 100 == 5))
  }

  /**
   What follows a failure: a repair, once, for output that missed the tool or its schema; another try
   while the budget lasts for what is worth retrying; else the end.
   */
  lemma ActionMeaning(failure: Failure, repairUsed: bool, used: nat, budget: nat)
    requires used <= budget <= MAX_U32
    ensures var repairs := !repairUsed
              && failure.kind in {MissingTool, Prose, WrongTool, SchemaInvalid, ThinkingToolChoiceIncompatible};
            var retries := used < budget && WorthRetrying(failure);
            NextAction(failure, repairUsed, used, budget)
            == if repairs then Continue(OutputRepair, 0, true)
               else if retries then Continue(ProviderRetry, used + 1, repairUsed)
               else Stop
  {
  }

  /** `audited_max_stream_attempts`. */
  function MaxAttempts(budget: nat): nat {
    SaturatingAdd(SaturatingAdd(SaturatingAdd(budget, 1), 1), budget)
  }

  lemma MaxAttemptsFormula(budget: nat)
    requires budget <= MAX_U32
    ensures MaxAttempts(budget) == Saturate(2 * budget + 2)
    ensures MaxAttempts(budget) == if budget < 2147483647 then 2 * budget + 2 else 4294967295
  {
  }

  /** Every continuation lowers (repair unused, retries left) lexicographically. */
  lemma ContinuationsDecrease(failure: Failure, repairUsed: bool, used: nat, budget: nat)
    requires used <= budget <= MAX_U32
    ensures var next := NextAction(failure, repairUsed, used, budget);
            next.Continue? ==>
              next.retryIndex <= budget
              && ((!repairUsed && next.repairUsed)
                  || (repairUsed == next.repairUsed && budget - next.retryIndex < budget - used))
  {
  }

  /** Streams started for a failure sequence, before any saturation. */
  function Attempts(failures: seq<Failure>, repairUsed: bool, used: nat, budget: nat): nat {
    if failures == [] then 0
    else
      match NextAction(failures[0], repairUsed, used, budget)
      case Stop => 1
      case Continue(_, retryIndex, nextRepairUsed) => 1 + Attempts(failures[1..], nextRepairUsed, retryIndex, budget)
  }

  /** Output repairs scheduled for a failure sequence. */
  function Repairs(failures: seq<Failure>, repairUsed: bool, used: nat, budget: nat): nat {
    if failures == [] then 0
    else
      match NextAction(failures[0], repairUsed, used, budget)
      case Stop => 0
      case Continue(kind, retryIndex, nextRepairUsed) =>
        (if kind.OutputRepair? then 1 else 0) + Repairs(failures[1..], nextRepairUsed, retryIndex, budget)
  }

  lemma {:induction false} RunIsBounded(failures: seq<Failure>, repairUsed: bool, used: nat, budget: nat)
    requires used <= budget <= MAX_U32
    ensures Attempts(failures, repairUsed, used, budget) <= budget - used + 1 + if repairUsed then 0 else budget + 1
    ensures Repairs(failures, repairUsed, used, budget) <= if repairUsed then 0 else 1
    decreases |failures|
  {
    if failures != [] {
      var next := NextAction(failures[0], repairUsed, used, budget);
      if next.Continue? {
        RunIsBounded(failures[1..], next.repairUsed, next.retryIndex, budget);
      }
    }
  }

  /** `count_stream_attempts_until_stop`. */
  method CountAttempts(failures: seq<Failure>, budget: nat) returns (attempts: nat)
    requires budget <= MAX_U32
    ensures attempts == Saturate(Attempts(failures, false, 0, budget))
    ensures attempts <= MaxAttempts(budget)
    ensures Repairs(failures, false, 0, budget) <= 1
  {
    RunIsBounded(failures, false, 0, budget);
    MaxAttemptsFormula(budget);
    var repairUsed := false;
    var used: nat := 0;
    attempts := 0;
    ghost var exact: nat := 0;
    for i := 0 to |failures|
      invariant attempts == Saturate(exact)
      invariant exact + Attempts(failures[i..], repairUsed, used, budget) == Attempts(failures, false, 0, budget)
    {
      assert failures[i..][1..] == failures[i + 1..];
      attempts := SaturatingAdd(attempts, 1);
      exact := exact + 1;
      match NextAction(failures[i], repairUsed, used, budget)
      case Continue(_, retryIndex, nextRepairUsed) =>
        used := retryIndex;
        repairUsed := nextRepairUsed;
      case Stop =>
        return;
    }
  }

  const TIMEOUT := Failure(ProviderTimeout, None)
  const PROSE := Failure(Prose, None)

  function Timeouts(n: nat): (r: seq<Failure>)
    ensures |r| == n && forall i :: 0 <= i < n ==> r[i] == TIMEOUT
  {
    seq(n, _ => TIMEOUT)
  }

  /** Time-outs until the budget is spent, prose, then time-outs again. */
  function WorstCase(budget: nat): seq<Failure> {
    Timeouts(budget) + ([PROSE] + Timeouts(budget + 1))
  }

  lemma {:induction false} TimeoutsSpendTheBudget(n: nat, rest: seq<Failure>, repairUsed: bool, used: nat, budget: nat)
    requires used + n == budget <= MAX_U32
    ensures Attempts(Timeouts(n) + rest, repairUsed, used, budget) == n + Attempts(rest, repairUsed, budget, budget)
    ensures Repairs(Timeouts(n) + rest, repairUsed, used, budget) == Repairs(rest, repairUsed, budget, budget)
    decreases n
  {
    if n == 0 {
      assert Timeouts(n) + rest == rest;
    } else {
      assert (Timeouts(n) + rest)[1..] == Timeouts(n - 1) + rest;
      TimeoutsSpendTheBudget(n - 1, rest, repairUsed, used + 1, budget);
    }
  }

  /** The bound is attained, with one repair. */
  lemma {:induction false} BoundIsAttained(budget: nat)
    requires budget <= MAX_U32
    ensures Attempts(WorstCase(budget), false, 0, budget) == 2 * budget + 2
    ensures Saturate(Attempts(WorstCase(budget), false, 0, budget)) == MaxAttempts(budget)
    ensures Repairs(WorstCase(budget), false, 0, budget) == 1
  {
    var repaired := Timeouts(budget) + [TIMEOUT];
    assert Timeouts(budget + 1) == repaired;
    TimeoutsSpendTheBudget(budget, [PROSE] + repaired, false, 0, budget);
    RepairResetsTheBudget(repaired, budget);
    TimeoutsSpendTheBudget(budget, [TIMEOUT], true, 0, budget);
    assert Attempts([TIMEOUT], true, budget, budget) == 1;
    MaxAttemptsFormula(budget);
  }

  lemma RepairResetsTheBudget(rest: seq<Failure>, budget: nat)
    ensures Attempts([PROSE] + rest, false, budget, budget) == 1 + Attempts(rest, true, 0, budget)
    ensures Repairs([PROSE] + rest, false, budget, budget) == 1 + Repairs(rest, true, 0, budget)
  {
  }
}
