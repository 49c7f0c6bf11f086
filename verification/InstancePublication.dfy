/** What the metadata file says after a lock owner has acquired or published (app/single_instance.rs). */
module InstancePublication {
  import opened Wrappers
  import opened SingleInstance

  // ----- What a rename puts into the metadata file -----

  /** Process `p` starts to write a record. */
  predicate Begins(event: Event, p: Pid) {
    event.pid == p && (event.action.TryLock? || event.action.PublishReady?)
  }

  /** The last write that `p` began before moment `i` was begun by event `k`. */
  predicate BegunAt(events: seq<Event>, k: nat, i: nat, p: Pid) {
    k < i <= |events| && Begins(events[k], p) && forall j :: k < j < i ==> !Begins(events[j], p)
  }

  /** The record that belongs to the event: a starting one for an acquisition, a ready one for a publication. */
  predicate Announces(m: Metadata, p: Pid, begun: Action) {
    m.version == 1 && m.pid == p
    && (begun.TryLock? ==> m.state.Starting? && m.listenAddr.None?)
    && (begun.PublishReady? ==> m.state.Ready? && m.listenAddr == Some(begun.addr))
  }

  lemma BeginsWithItsRecord(w: World, p: Pid, a: Action)
    requires Enabled(w, p, a) && (a.TryLock? || a.PublishReady?)
    ensures ProcessOf(Next(w, p, a), p).Writing? ==> Announces(ProcessOf(Next(w, p, a), p).record, p, a)
  {
  }

  /** No other step of a process starts a write or changes its record. */
  lemma KeepsItsRecord(w: World, p: Pid, a: Action)
    requires Enabled(w, p, a) && !a.TryLock? && !a.PublishReady?
    ensures ProcessOf(Next(w, p, a), p).Writing? ==>
              ProcessOf(w, p).Writing? && ProcessOf(Next(w, p, a), p).record == ProcessOf(w, p).record
  {
  }

  /** If `p` writes in `v`, it writes the same record in `w`. */
  predicate Carries(v: World, w: World, p: Pid) {
    ProcessOf(v, p).Writing? ==> ProcessOf(w, p).Writing? && ProcessOf(v, p).record == ProcessOf(w, p).record
  }

  lemma EventCarries(w: World, e: Event, p: Pid)
    requires Enabled(w, e.pid, e.action) && !Begins(e, p)
    ensures Carries(Next(w, e.pid, e.action), w, p)
  {
    if e.pid == p {
      KeepsItsRecord(w, p, e.action);
    } else {
      OthersUnchanged(w, e.pid, e.action, p);
    }
  }

  lemma StepCarries(worlds: seq<World>, events: seq<Event>, j: nat, p: Pid)
    requires IsRun(worlds, events) && j < |events| && !Begins(events[j], p)
    ensures Carries(worlds[j + 1], worlds[j], p)
  {
    EventCarries(worlds[j], events[j], p);
  }

  lemma {:induction false} CarriedOn(worlds: seq<World>, first: nat, last: nat, p: Pid)
    requires first <= last < |worlds| && forall j :: first <= j < last ==> Carries(worlds[j + 1], worlds[j], p)
    ensures Carries(worlds[last], worlds[first], p)
    decreases last
  {
    if first < last {
      CarriedOn(worlds, first, last - 1, p);
      assert Carries(worlds[last - 1 + 1], worlds[last - 1], p);
    }
  }

  lemma BeginningWrites(worlds: seq<World>, events: seq<Event>, k: nat, p: Pid)
    requires IsRun(worlds, events) && k < |events| && Begins(events[k], p)
    ensures ProcessOf(worlds[k + 1], p).Writing? ==> Announces(ProcessOf(worlds[k + 1], p).record, p, events[k].action)
  {
    BeginsWithItsRecord(worlds[k], p, events[k].action);
  }

  lemma WritesWhatWasBegun(worlds: seq<World>, events: seq<Event>, k: nat, i: nat, p: Pid)
    requires IsRun(worlds, events) && BegunAt(events, k, i, p)
    ensures ProcessOf(worlds[i], p).Writing? ==> Announces(ProcessOf(worlds[i], p).record, p, events[k].action)
  {
    BeginningWrites(worlds, events, k, p);
    forall j | k + 1 <= j < i ensures Carries(worlds[j + 1], worlds[j], p) {
      StepCarries(worlds, events, j, p);
    }
    CarriedOn(worlds, k + 1, i, p);
  }

  lemma {:induction false} WritingHasABeginning(worlds: seq<World>, events: seq<Event>, i: nat, p: Pid) returns (k: nat)
    requires IsRun(worlds, events) && i < |worlds| && ProcessOf(worlds[i], p).Writing?
    ensures BegunAt(events, k, i, p)
  {
    if Begins(events[i - 1], p) {
      k := i - 1;
    } else {
      StepCarries(worlds, events, i - 1, p);
      k := WritingHasABeginning(worlds, events, i - 1, p);
    }
  }

  /**
   In every run a rename ends a write that its process began with an acquisition or a publication, and
   leaves a complete record: starting after an acquisition, ready with the published address after a
   publication.
   */
  lemma RenamePublishes(worlds: seq<World>, events: seq<Event>, i: nat, p: Pid) returns (k: nat)
    requires IsRun(worlds, events) && i < |events| && events[i] == Event(p, Rename)
    ensures BegunAt(events, k, i, p)
    ensures var metadata := worlds[i + 1].metadata;
            metadata.Some? && metadata.value.Whole? && Announces(metadata.value.record, p, events[k].action)
  {
    assert Enabled(worlds[i], p, Rename) && worlds[i + 1] == Next(worlds[i], p, Rename);
    k := WritingHasABeginning(worlds, events, i, p);
    WritesWhatWasBegun(worlds, events, k, i, p);
    RunsKeepInvariant(worlds, events, i);
    MetadataChangesOnlyByTheLockHolder(worlds[i], p, Rename);
  }

  // ----- A process can acquire and publish -----

  /** The world after these events, if each of them can take place. */
  function After(w: World, events: seq<Event>): Option<World> {
    if events == [] then Some(w)
    else
      var before, last := After(w, events[..|events| - 1]), events[|events| - 1];
      if before.None? || !Enabled(before.value, last.pid, last.action) then None
      else Some(Next(before.value, last.pid, last.action))
  }

  lemma {:induction false} RunOf(w: World, events: seq<Event>) returns (worlds: seq<World>)
    requires Initial(w) && After(w, events).Some?
    ensures IsRun(worlds, events) && worlds[0] == w && worlds[|events|] == After(w, events).value
    decreases |events|
  {
    if events == [] {
      worlds := [w];
    } else {
      var before, last := events[..|events| - 1], events[|events| - 1];
      var sofar := RunOf(w, before);
      worlds := sofar + [After(w, events).value];
      OneMoreStep(sofar, before, last);
      assert before + [last] == events;
    }
  }

  lemma OneMoreStep(worlds: seq<World>, events: seq<Event>, e: Event)
    requires IsRun(worlds, events) && Enabled(worlds[|events|], e.pid, e.action)
    ensures IsRun(worlds + [Next(worlds[|events|], e.pid, e.action)], events + [e])
  {
  }

  /** Where events lead, as a function. */
  type History = seq<Event> -> Option<World>

  /** An event that can take place leads to the next world. */
  ghost predicate Follows(after: History) {
    forall events, e: Event ::
      after(events).Some? && Enabled(after(events).value, e.pid, e.action) ==>
        after(events + [e]) == Some(Next(after(events).value, e.pid, e.action))
  }

  function HistoryFrom(w: World): History {
    (events: seq<Event>) => After(w, events)
  }

  lemma HistoriesFollow(w: World)
    ensures Follows(HistoryFrom(w))
  {
    forall events, e: Event | After(w, events).Some? && Enabled(After(w, events).value, e.pid, e.action)
      ensures After(w, events + [e]) == Some(Next(After(w, events).value, e.pid, e.action))
    {
      assert (events + [e])[..|events|] == events;
    }
  }

  /** Process `p` is about to create its temporary file and has `left` attempts. */
  predicate IsCreating(w: World, p: Pid, record: Metadata, left: nat, acquiring: bool) {
    ProcessOf(w, p) == Writing(record, Creating(left), acquiring)
  }

  /** The number of taken suffixes from this one on, up to a limit. */
  function Taken(temps: map<(Pid, nat), Content>, p: Pid, suffix: nat, limit: nat): (n: nat)
    ensures n <= limit
    ensures forall x :: suffix <= x < suffix + n ==> (p, x) in temps
    ensures n < limit ==> (p, suffix + n) !in temps
    decreases limit
  {
    if limit == 0 || (p, suffix) !in temps then 0 else 1 + Taken(temps, p, suffix + 1, limit - 1)
  }

  /** What does not change while a process writes its temporary file. */
  predicate SameOutside(w: World, v: World) {
    v.lock == w.lock && v.metadata == w.metadata
  }

  /** The world after the temporary file was created under this suffix. */
  predicate HasCreated(w: World, v: World, p: Pid, record: Metadata, acquiring: bool, suffix: nat) {
    ProcessOf(v, p) == Writing(record, Created(suffix), acquiring) && SameOutside(w, v)
    && v.temps == w.temps[(p, suffix) := Partial] && SuffixOf(v, p) == suffix + 1
  }

  /** One attempt: the file is created if its name is free, else the next suffix is up. */
  lemma TryOnce(after: History, events: seq<Event>, v: World, p: Pid, record: Metadata, left: nat, acquiring: bool)
    returns (more: seq<Event>, u: World)
    requires Follows(after) && after(events) == Some(v) && IsCreating(v, p, record, left, acquiring) && left > 0
    ensures after(more) == Some(u)
    ensures if (p, SuffixOf(v, p)) !in v.temps then HasCreated(v, u, p, record, acquiring, SuffixOf(v, p))
            else
              IsCreating(u, p, record, left - 1, acquiring) && SuffixOf(u, p) == SuffixOf(v, p) + 1
              && SameOutside(v, u) && u.temps == v.temps
  {
    assert Enabled(v, p, CreateTemp);
    more, u := events + [Event(p, CreateTemp)], Next(v, p, CreateTemp);
  }

  /** Creating skips the suffixes that are taken and uses the first free one, if an attempt is left for it. */
  lemma {:induction false} FirstFreeSuffixIsUsed(
    after: History, events: seq<Event>, v: World, p: Pid, record: Metadata, left: nat, acquiring: bool)
    returns (more: seq<Event>, u: World)
    requires Follows(after) && after(events) == Some(v) && IsCreating(v, p, record, left, acquiring)
    requires Taken(v.temps, p, SuffixOf(v, p), left) < left
    ensures after(more) == Some(u)
    ensures HasCreated(v, u, p, record, acquiring, SuffixOf(v, p) + Taken(v.temps, p, SuffixOf(v, p), left))
    decreases left
  {
    more, u := TryOnce(after, events, v, p, record, left, acquiring);
    if (p, SuffixOf(v, p)) in v.temps {
      more, u := FirstFreeSuffixIsUsed(after, more, u, p, record, left - 1, acquiring);
    }
  }

  /** When every attempt is spent, the write fails. */
  lemma NoAttemptLeft(w: World, p: Pid, record: Metadata, acquiring: bool)
    requires IsCreating(w, p, record, 0, acquiring)
    ensures Enabled(w, p, CreateTemp)
    ensures ProcessOf(Next(w, p, CreateTemp), p) == if acquiring then Idle else Owner
    ensures Next(w, p, CreateTemp).metadata == w.metadata
  {
  }

  /** The world after the record was published. */
  predicate HasWritten(w: World, v: World, p: Pid, record: Metadata, suffix: nat) {
    ProcessOf(v, p) == Owner && v.metadata == Some(Whole(record))
    && v.lock == w.lock && v.temps == w.temps && SuffixOf(v, p) == suffix + 1
  }

  lemma FinishWrite(
    after: History, events: seq<Event>, v: World, p: Pid, record: Metadata, acquiring: bool, suffix: nat)
    returns (more: seq<Event>, u: World)
    requires Follows(after) && after(events) == Some(v)
    requires ProcessOf(v, p) == Writing(record, Created(suffix), acquiring)
    ensures after(more) == Some(u)
    ensures ProcessOf(u, p) == Owner && u.metadata == Some(Whole(record)) && u.lock == v.lock
    ensures u.temps == v.temps - {(p, suffix)} && SuffixOf(u, p) == SuffixOf(v, p)
  {
    assert Enabled(v, p, WriteTemp);
    more, u := events + [Event(p, WriteTemp)], Next(v, p, WriteTemp);
    assert Enabled(u, p, Rename);
    more, u := more + [Event(p, Rename)], Next(u, p, Rename);
  }

  lemma UndoCreation(temps: map<(Pid, nat), Content>, p: Pid, suffix: nat)
    requires (p, suffix) !in temps
    ensures temps[(p, suffix) := Partial] - {(p, suffix)} == temps
  {
  }

  /** With a free suffix within the attempts, a write that has begun can complete. */
  lemma {:induction false} WriteCompletes(
    after: History, events: seq<Event>, v: World, p: Pid, record: Metadata, left: nat, acquiring: bool)
    returns (more: seq<Event>, u: World)
    requires Follows(after) && after(events) == Some(v) && IsCreating(v, p, record, left, acquiring)
    requires Taken(v.temps, p, SuffixOf(v, p), left) < left
    ensures after(more) == Some(u)
    ensures HasWritten(v, u, p, record, SuffixOf(v, p) + Taken(v.temps, p, SuffixOf(v, p), left))
  {
    var suffix := SuffixOf(v, p) + Taken(v.temps, p, SuffixOf(v, p), left);
    var sofar, created := FirstFreeSuffixIsUsed(after, events, v, p, record, left, acquiring);
    more, u := FinishWrite(after, sofar, created, p, record, acquiring, suffix);
    UndoCreation(v.temps, p, suffix);
  }

  /** An owner with a free temporary name can publish any address. */
  lemma OwnerCanPublish(after: History, events: seq<Event>, v: World, p: Pid, addr: Address, attempts: nat)
    returns (more: seq<Event>, u: World)
    requires attempts == 16 && Follows(after) && after(events) == Some(v) && ProcessOf(v, p).Owner?
    requires Taken(v.temps, p, SuffixOf(v, p), attempts) < attempts
    ensures after(more) == Some(u) && u.lock == v.lock && ProcessOf(u, p) == Owner
    ensures u.metadata == Some(Whole(Metadata(1, p, Ready, Some(addr))))
  {
    assert Enabled(v, p, PublishReady(addr));
    more, u := events + [Event(p, PublishReady(addr))], Next(v, p, PublishReady(addr));
    more, u := WriteCompletes(after, more, u, p, Metadata(1, p, Ready, Some(addr)), attempts, false);
  }

  /** A process that finds the lock free and a free temporary name can acquire it. */
  lemma IdleCanAcquire(after: History, events: seq<Event>, v: World, p: Pid, attempts: nat)
    returns (more: seq<Event>, u: World)
    requires attempts == 16 && Follows(after) && after(events) == Some(v) && ProcessOf(v, p).Idle? && v.lock.None?
    requires Taken(v.temps, p, SuffixOf(v, p), attempts) < attempts
    ensures after(more) == Some(u) && u.lock == Some(p)
    ensures ProcessOf(u, p) == Owner && u.metadata == Some(Whole(Metadata(1, p, Starting, None)))
    ensures u.temps == v.temps && SuffixOf(u, p) == SuffixOf(v, p) + Taken(v.temps, p, SuffixOf(v, p), attempts) + 1
  {
    assert Enabled(v, p, TryLock);
    more, u := events + [Event(p, TryLock)], Next(v, p, TryLock);
    more, u := WriteCompletes(after, more, u, p, Metadata(1, p, Starting, None), attempts, true);
  }

  /** There is a free temporary name for each of two writes. */
  predicate TwoNamesAreFree(w: World, p: Pid, attempts: nat) {
    var taken := Taken(w.temps, p, 1, attempts);
    taken < attempts && Taken(w.temps, p, taken + 2, attempts) < attempts
  }

  lemma AcquireAndPublish(after: History, w: World, p: Pid, addr: Address, attempts: nat)
    returns (events: seq<Event>, u: World)
    requires Follows(after) && after([]) == Some(w) && Initial(w) && attempts == 16 && TwoNamesAreFree(w, p, attempts)
    ensures after(events) == Some(u) && u.lock == Some(p) && ProcessOf(u, p) == Owner
    ensures u.metadata == Some(Whole(Metadata(1, p, Ready, Some(addr))))
  {
    var acquired, v := IdleCanAcquire(after, [], w, p, attempts);
    events, u := OwnerCanPublish(after, acquired, v, p, addr, attempts);
  }

  /**
   From every initial world with a free temporary name for each of the two writes, any process can
   acquire the lock and publish any address; it then owns the lock and the metadata names that
   address.
   */
  lemma SomeRunPublishes(w: World, p: Pid, addr: Address, attempts: nat)
    returns (worlds: seq<World>, events: seq<Event>)
    requires Initial(w) && attempts == 16 && TwoNamesAreFree(w, p, attempts)
    ensures IsRun(worlds, events) && worlds[0] == w
    ensures worlds[|events|].lock == Some(p) && ProcessOf(worlds[|events|], p) == Owner
    ensures worlds[|events|].metadata == Some(Whole(Metadata(1, p, Ready, Some(addr))))
  {
    HistoriesFollow(w);
    var u;
    events, u := AcquireAndPublish(HistoryFrom(w), w, p, addr, attempts);
    worlds := RunOf(w, events);
  }
}
