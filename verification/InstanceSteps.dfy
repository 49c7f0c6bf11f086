/** What each step of a process can do, and what a failure or a crash leaves behind (app/single_instance.rs). */
module InstanceSteps {
  import opened Wrappers
  import opened SingleInstance

  /** Which steps a process can take at each stage; a complete temporary file is always there to be renamed. */
  lemma StepsOfEveryStage(w: World, p: Pid, addr: Address, flag: bool)
    requires Invariant(w)
    ensures var process := ProcessOf(w, p);
            var stage := if process.Writing? then Some(process.stage) else None;
            (Enabled(w, p, TryLock) <==> process.Idle?)
            && (Enabled(w, p, CreateTemp) <==> stage.Some? && stage.value.Creating?)
            && (Enabled(w, p, CreateTempFails(flag)) <==> stage.Some? && stage.value.Creating?)
            && (Enabled(w, p, WriteTemp) <==> stage.Some? && stage.value.Created?)
            && (Enabled(w, p, WriteTempFails(flag)) <==> stage.Some? && stage.value.Created?)
            && (Enabled(w, p, Rename) <==> stage.Some? && stage.value.Written?)
            && (Enabled(w, p, RenameFails(flag)) <==> stage.Some? && stage.value.Written?)
            && (Enabled(w, p, PublishReady(addr)) <==> process.Owner?)
            && (Enabled(w, p, DropGuard) <==> process.Owner?)
            && (Enabled(w, p, Exit) <==> process.Contended?)
            && Enabled(w, p, Crash)
  {
    assert WriterReady(w, p, ProcessOf(w, p));
  }

  /** Whatever it does, a process can crash, which frees its lock and leaves every file as it is. */
  lemma CrashFreesTheLock(w: World, p: Pid)
    requires Invariant(w)
    ensures Enabled(w, p, Crash)
    ensures var next := Next(w, p, Crash);
            ProcessOf(next, p).Idle? && SuffixOf(next, p) == 1
            && next.lock == (if Holds(ProcessOf(w, p)) then None else w.lock)
            && next.metadata == w.metadata && next.temps == w.temps
  {
    assert Holds(ProcessOf(w, p)) <==> w.lock == Some(p);
  }

  /** An owner that drops its guard frees the lock; the record of the last owner stays. */
  lemma DropFreesTheLock(w: World, p: Pid)
    requires Invariant(w) && ProcessOf(w, p).Owner?
    ensures Enabled(w, p, DropGuard)
    ensures var next := Next(w, p, DropGuard);
            ProcessOf(next, p).Idle? && next.lock.None? && SuffixOf(next, p) == SuffixOf(w, p)
            && next.metadata == w.metadata && next.temps == w.temps
  {
    assert Holds(ProcessOf(w, p)) <==> w.lock == Some(p);
  }

  predicate Fails(a: Action) {
    a.CreateTempFails? || a.WriteTempFails? || a.RenameFails?
  }

  /** A failed write ends an acquisition and frees the lock; an owner that fails to publish stays the owner. */
  lemma FailureOfAWrite(w: World, p: Pid, a: Action)
    requires Invariant(w) && Enabled(w, p, a) && Fails(a)
    ensures var next := Next(w, p, a);
            next.metadata == w.metadata
            && (ProcessOf(w, p).acquiring ==> ProcessOf(next, p).Idle? && next.lock.None?)
            && (!ProcessOf(w, p).acquiring ==> ProcessOf(next, p).Owner? && next.lock == Some(p))
  {
    assert Holds(ProcessOf(w, p)) <==> w.lock == Some(p);
  }

  /** The suffix of the temporary file that `p` works on. */
  function CurrentSuffix(w: World, p: Pid): nat
    requires ProcessOf(w, p).Writing?
  {
    match ProcessOf(w, p).stage
    case Creating(_) => SuffixOf(w, p)
    case Created(suffix) => suffix
    case Written(suffix) => suffix
  }

  /** The files of the two worlds agree under every other name. */
  predicate OnlyAt(w: World, next: World, name: (Pid, nat)) {
    next.temps - {name} == w.temps - {name}
  }

  /** Steps that are no part of a write leave the temporary files alone; the others touch the current one only. */
  lemma OneTempFile(w: World, p: Pid, a: Action)
    requires Enabled(w, p, a)
    ensures !ProcessOf(w, p).Writing? || a.Crash? ==> Next(w, p, a).temps == w.temps
    ensures ProcessOf(w, p).Writing? ==> OnlyAt(w, Next(w, p, a), (p, CurrentSuffix(w, p)))
  {
  }

  /** Which file a failure leaves: what stood there before, and what was created and not removed. */
  lemma FilesOfAFailure(w: World, p: Pid, a: Action)
    requires Invariant(w) && Enabled(w, p, a) && Fails(a)
    ensures var name := (p, CurrentSuffix(w, p));
            name in Next(w, p, a).temps <==>
              match a
              case CreateTempFails(leavesFile) => leavesFile || name in w.temps
              case WriteTempFails(removed) => !removed
              case RenameFails(removed) => !removed
  {
    assert WriterReady(w, p, ProcessOf(w, p));
  }

  /** A write goes from an empty file over a complete one to none, once it is renamed. */
  lemma FilesOfAWrite(w: World, p: Pid, a: Action)
    requires Enabled(w, p, a) && ProcessOf(w, p).Writing?
    ensures var name := (p, CurrentSuffix(w, p));
            var next := Next(w, p, a);
            (a.CreateTemp? && ProcessOf(w, p).stage.attemptsLeft > 0 && name !in w.temps ==>
               name in next.temps && next.temps[name].Partial?)
            && (a.CreateTempFails? && name in w.temps ==> next.temps[name] == w.temps[name])
            && (a.WriteTemp? ==> name in next.temps && next.temps[name] == Whole(ProcessOf(w, p).record))
            && (a.Rename? ==> name !in next.temps)
  {
  }

  /** Every attempt to create a file uses up a suffix; only a crash gives suffixes back. */
  lemma SuffixesGrow(w: World, p: Pid, a: Action)
    requires Enabled(w, p, a) && !a.Crash?
    ensures var failed := a.CreateTemp? && ProcessOf(w, p).stage.attemptsLeft == 0;
            SuffixOf(Next(w, p, a), p) ==
            SuffixOf(w, p) + if (a.CreateTemp? && !failed) || a.CreateTempFails? then 1 else 0
  {
  }
}
