/**
 The single-instance lock and its metadata file (app/single_instance.rs). Any number of processes
 acquire, publish, drop and crash in any interleaving; each file-system call is one atomic step.
 */
module SingleInstance {
  import opened Wrappers

  type Pid = nat

  datatype Ip = V4(a: nat) | V6(b: nat)

  datatype Address = Address(ip: Ip, port: nat)

  datatype InstanceState = Starting | Ready

  datatype Metadata = Metadata(version: nat, pid: Pid, state: InstanceState, listenAddr: Option<Address>)

  const METADATA_VERSION: nat := 1
  const TEMP_FILE_ATTEMPTS: nat := 16

  /** `SingleInstanceMetadata::validate`. */
  predicate ValidMetadata(m: Metadata) {
    m.version == METADATA_VERSION && (m.state.Ready? <==> m.listenAddr.Some?)
  }

  function StartingMetadata(pid: Pid): Metadata {
    Metadata(METADATA_VERSION, pid, Starting, None)
  }

  function ReadyMetadata(pid: Pid, addr: Address): Metadata {
    Metadata(METADATA_VERSION, pid, Ready, Some(addr))
  }

  /** A record is valid exactly when it is of version one and has an address if and only if it is ready. */
  lemma ValidRecords(m: Metadata)
    ensures ValidMetadata(m) <==>
            m == Metadata(1, m.pid, Starting, None)
            || (m.listenAddr.Some? && m == Metadata(1, m.pid, Ready, Some(m.listenAddr.value)))
  {
  }

  /** A file is complete only once all of its bytes are written. */
  datatype Content = Partial | Whole(record: Metadata)

  /** The stages of `write_metadata_atomically`. */
  datatype Stage = Creating(attemptsLeft: nat) | Created(suffix: nat) | Written(suffix: nat)

  datatype Process =
    | Idle
    | Contended
    | Writing(record: Metadata, stage: Stage, acquiring: bool)
    | Owner

  /** Temporary files are named by process id and suffix; a process that crashed may have left some behind. */
  datatype World = World(
    lock: Option<Pid>,
    metadata: Option<Content>,
    temps: map<(Pid, nat), Content>,
    processes: map<Pid, Process>,
    suffixes: map<Pid, nat>)

  function ProcessOf(w: World, p: Pid): Process {
    if p in w.processes then w.processes[p] else Idle
  }

  function SuffixOf(w: World, p: Pid): nat {
    if p in w.suffixes then w.suffixes[p] else 1
  }

  datatype Action =
    | TryLock
    | CreateTemp
    | CreateTempFails(leavesFile: bool)
    | WriteTemp
    | WriteTempFails(removed: bool)
    | Rename
    | RenameFails(removed: bool)
    | PublishReady(addr: Address)
    | DropGuard
    | Crash
    | Exit

  predicate Enabled(w: World, p: Pid, a: Action) {
    var process := ProcessOf(w, p);
    match a
    case TryLock => process.Idle?
    case CreateTemp => process.Writing? && process.stage.Creating?
    case CreateTempFails(_) => process.Writing? && process.stage.Creating?
    case WriteTemp => process.Writing? && process.stage.Created?
    case WriteTempFails(_) => process.Writing? && process.stage.Created?
    case Rename => process.Writing? && process.stage.Written? && (p, process.stage.suffix) in w.temps
    case RenameFails(_) => process.Writing? && process.stage.Written?
    case PublishReady(_) => process.Owner?
    case DropGuard => process.Owner?
    case Crash => true
    case Exit => process.Contended?
  }

  function Set(w: World, p: Pid, process: Process): World {
    w.(processes := w.processes[p := process])
  }

  /** The operating system releases the lock of a process that closes its file. */
  function Release(w: World, p: Pid): World {
    Set(w, p, Idle).(lock := if w.lock == Some(p) then None else w.lock)
  }

  /** A failed write ends the acquisition and releases the lock; a failed publication leaves the owner in place. */
  function WriteFailed(w: World, p: Pid, acquiring: bool): World {
    if acquiring then Release(w, p) else Set(w, p, Owner)
  }

  function Next(w: World, p: Pid, a: Action): World
    requires Enabled(w, p, a)
  {
    var process := ProcessOf(w, p);
    match a
    case TryLock =>
      if w.lock.Some? then Set(w, p, Contended)
      else Set(w, p, Writing(StartingMetadata(p), Creating(TEMP_FILE_ATTEMPTS), true)).(lock := Some(p))
    case CreateTemp =>
      var suffix := SuffixOf(w, p);
      var counted := w.(suffixes := w.suffixes[p := suffix + 1]);
      if process.stage.attemptsLeft == 0 then WriteFailed(w, p, process.acquiring)
      else if (p, suffix) in w.temps then Set(counted, p, process.(stage := Creating(process.stage.attemptsLeft - 1)))
      else Set(counted, p, process.(stage := Created(suffix))).(temps := w.temps[(p, suffix) := Partial])
    case CreateTempFails(leavesFile) =>
      var suffix := SuffixOf(w, p);
      var left := if leavesFile && (p, suffix) !in w.temps then w.temps[(p, suffix) := Partial] else w.temps;
      WriteFailed(w, p, process.acquiring).(temps := left, suffixes := w.suffixes[p := suffix + 1])
    case WriteTemp =>
      Set(w, p, process.(stage := Written(process.stage.suffix)))
      .(temps := w.temps[(p, process.stage.suffix) := Whole(process.record)])
    case WriteTempFails(removed) =>
      WriteFailed(w, p, process.acquiring)
      .(temps :=
          if removed then w.temps - {(p, process.stage.suffix)}
          else w.temps[(p, process.stage.suffix) := Partial])
    case Rename =>
      Set(w, p, Owner)
      .(metadata := Some(w.temps[(p, process.stage.suffix)]), temps := w.temps - {(p, process.stage.suffix)})
    case RenameFails(removed) =>
      WriteFailed(w, p, process.acquiring)
      .(temps := if removed then w.temps - {(p, process.stage.suffix)} else w.temps)
    case PublishReady(addr) => Set(w, p, Writing(ReadyMetadata(p, addr), Creating(TEMP_FILE_ATTEMPTS), false))
    case DropGuard => Release(w, p)
    case Crash => Release(w, p).(suffixes := w.suffixes - {p})
    case Exit => Set(w, p, Idle)
  }

  // ----- What every step keeps -----

  predicate Holds(process: Process) {
    process.Writing? || process.Owner?
  }

  /** The lock is held exactly by the process that writes or owns. */
  ghost predicate LockMatches(w: World) {
    forall p: Pid :: Holds(ProcessOf(w, p)) <==> w.lock == Some(p)
  }

  /** The metadata file is absent or one complete record that passes validation. */
  predicate MetadataWhole(w: World) {
    w.metadata.Some? ==> w.metadata.value.Whole? && ValidMetadata(w.metadata.value.record)
  }

  /** The acquisition is complete and the guard has not been released. */
  predicate Acquired(process: Process) {
    process.Owner? || (process.Writing? && !process.acquiring)
  }

  /** The metadata file is one complete valid record of that process. */
  predicate CarriesPid(w: World, p: Pid) {
    w.metadata.Some? && w.metadata.value.Whole?
    && ValidMetadata(w.metadata.value.record) && w.metadata.value.record.pid == p
  }

  predicate WriterReady(w: World, p: Pid, process: Process) {
    process.Writing? ==>
      ValidMetadata(process.record) && process.record.pid == p
      && (process.stage.Written? ==>
            (p, process.stage.suffix) in w.temps && w.temps[(p, process.stage.suffix)] == Whole(process.record))
  }

  ghost predicate Invariant(w: World) {
    LockMatches(w)
    && (forall p: Pid :: Acquired(ProcessOf(w, p)) ==> CarriesPid(w, p))
    && (forall p: Pid :: WriterReady(w, p, ProcessOf(w, p)))
  }

  /** Only a process that holds the lock changes the metadata, by renaming its own complete record over it. */
  lemma MetadataChangesOnlyByTheLockHolder(w: World, p: Pid, a: Action)
    requires Invariant(w) && Enabled(w, p, a)
    ensures Next(w, p, a).metadata != w.metadata ==> a.Rename? && w.lock == Some(p)
    ensures ProcessOf(w, p).Contended? ==> Next(w, p, a).metadata == w.metadata && Next(w, p, a).lock == w.lock
    ensures a.Rename? ==> Next(w, p, a).metadata == Some(Whole(ProcessOf(w, p).record))
  {
  }

  lemma OthersUnchanged(w: World, p: Pid, a: Action, q: Pid)
    requires Enabled(w, p, a) && q != p
    ensures ProcessOf(Next(w, p, a), q) == ProcessOf(w, q)
    ensures forall n :: (q, n) in w.temps ==>
              (q, n) in Next(w, p, a).temps && Next(w, p, a).temps[(q, n)] == w.temps[(q, n)]
  {
  }

  lemma StepKeepsLock(w: World, p: Pid, a: Action)
    requires Invariant(w) && Enabled(w, p, a)
    ensures LockMatches(Next(w, p, a))
  {
    var next := Next(w, p, a);
    assert Holds(ProcessOf(w, p)) <==> w.lock == Some(p);
    forall q: Pid ensures Holds(ProcessOf(next, q)) <==> next.lock == Some(q) {
      assert Holds(ProcessOf(w, q)) <==> w.lock == Some(q);
      if q != p {
        OthersUnchanged(w, p, a, q);
      }
    }
  }

  lemma StepKeepsWriters(w: World, p: Pid, a: Action)
    requires Invariant(w) && Enabled(w, p, a)
    ensures forall q: Pid :: WriterReady(Next(w, p, a), q, ProcessOf(Next(w, p, a), q))
  {
    var next := Next(w, p, a);
    forall q: Pid ensures WriterReady(next, q, ProcessOf(next, q)) {
      assert WriterReady(w, q, ProcessOf(w, q));
      if q != p {
        OthersUnchanged(w, p, a, q);
      }
    }
  }

  lemma StepKeepsMetadata(w: World, p: Pid, a: Action)
    requires Invariant(w) && Enabled(w, p, a)
    ensures MetadataWhole(w) || a.Rename? ==> MetadataWhole(Next(w, p, a))
    ensures forall q: Pid :: Acquired(ProcessOf(Next(w, p, a), q)) ==> CarriesPid(Next(w, p, a), q)
  {
    var next := Next(w, p, a);
    MetadataChangesOnlyByTheLockHolder(w, p, a);
    assert WriterReady(w, p, ProcessOf(w, p));
    forall q: Pid | Acquired(ProcessOf(next, q)) ensures CarriesPid(next, q) {
      assert Holds(ProcessOf(w, q)) <==> w.lock == Some(q);
      assert Acquired(ProcessOf(w, q)) ==> CarriesPid(w, q);
      if q != p {
        OthersUnchanged(w, p, a, q);
      }
    }
  }

  lemma StepKeepsInvariant(w: World, p: Pid, a: Action)
    requires Invariant(w) && Enabled(w, p, a)
    ensures Invariant(Next(w, p, a))
  {
    StepKeepsLock(w, p, a);
    StepKeepsWriters(w, p, a);
    StepKeepsMetadata(w, p, a);
  }

  // ----- Whole runs -----

  /** Before the first process starts; anything may have left temporary files and a damaged metadata file. */
  predicate Initial(w: World) {
    w.lock.None? && w.processes == map[] && w.suffixes == map[]
  }

  datatype Event = Event(pid: Pid, action: Action)

  ghost predicate IsRun(worlds: seq<World>, events: seq<Event>) {
    |worlds| == |events| + 1 && Initial(worlds[0])
    && forall i :: 0 <= i < |events| ==>
         Enabled(worlds[i], events[i].pid, events[i].action)
         && worlds[i + 1] == Next(worlds[i], events[i].pid, events[i].action)
  }

  lemma {:induction false} RunsKeepInvariant(worlds: seq<World>, events: seq<Event>, i: nat)
    requires IsRun(worlds, events) && i < |worlds|
    ensures Invariant(worlds[i])
  {
    if i > 0 {
      RunsKeepInvariant(worlds, events, i - 1);
      StepKeepsInvariant(worlds[i - 1], events[i - 1].pid, events[i - 1].action);
    }
  }

  /** Some process has replaced the metadata file before moment `i`. */
  predicate Renamed(events: seq<Event>, i: nat)
    requires i <= |events|
  {
    exists k :: 0 <= k < i && events[k].action.Rename?
  }

  /** The metadata file is what was found at the start until the first rename, and a whole valid record from then on. */
  lemma {:induction false} MetadataOfRuns(worlds: seq<World>, events: seq<Event>, i: nat)
    requires IsRun(worlds, events) && i < |worlds|
    ensures Renamed(events, i) || MetadataWhole(worlds[0]) ==> MetadataWhole(worlds[i])
    ensures !Renamed(events, i) ==> worlds[i].metadata == worlds[0].metadata
  {
    if i > 0 {
      var p, a := events[i - 1].pid, events[i - 1].action;
      MetadataOfRuns(worlds, events, i - 1);
      RunsKeepInvariant(worlds, events, i - 1);
      StepKeepsMetadata(worlds[i - 1], p, a);
      MetadataChangesOnlyByTheLockHolder(worlds[i - 1], p, a);
      assert Renamed(events, i) <==> Renamed(events, i - 1) || a.Rename?;
    }
  }

  /**
   At every moment of every run: one holder at most; the metadata untouched or whole; and from its
   acquisition on the owner's pid in a whole valid record.
   */
  lemma RunsAreSafe(worlds: seq<World>, events: seq<Event>, i: nat)
    requires IsRun(worlds, events) && i < |worlds|
    ensures forall p: Pid, q: Pid :: Holds(ProcessOf(worlds[i], p)) && Holds(ProcessOf(worlds[i], q)) ==> p == q
    ensures Renamed(events, i) || MetadataWhole(worlds[0]) ==> MetadataWhole(worlds[i])
    ensures !Renamed(events, i) ==> worlds[i].metadata == worlds[0].metadata
    ensures forall p: Pid :: Acquired(ProcessOf(worlds[i], p)) ==> CarriesPid(worlds[i], p)
  {
    RunsKeepInvariant(worlds, events, i);
    MetadataOfRuns(worlds, events, i);
    forall p: Pid, q: Pid | Holds(ProcessOf(worlds[i], p)) && Holds(ProcessOf(worlds[i], q)) ensures p == q {
      assert worlds[i].lock == Some(p) && worlds[i].lock == Some(q);
    }
  }

  /** While a process stays the owner or merely publishes, nobody else gets the lock. */
  lemma {:induction false} OwnershipIsStable(worlds: seq<World>, events: seq<Event>, i: nat, j: nat, p: Pid)
    requires IsRun(worlds, events) && i <= j < |worlds| && worlds[i].lock == Some(p)
    requires forall k :: i <= k < j && events[k].pid == p ==> !events[k].action.DropGuard? && !events[k].action.Crash?
    requires Acquired(ProcessOf(worlds[i], p))
    ensures worlds[j].lock == Some(p) && Acquired(ProcessOf(worlds[j], p)) && CarriesPid(worlds[j], p)
    decreases j - i
  {
    RunsKeepInvariant(worlds, events, i);
    assert Acquired(ProcessOf(worlds[i], p)) ==> CarriesPid(worlds[i], p);
    if i < j {
      RunsKeepInvariant(worlds, events, i + 1);
      var q, a := events[i].pid, events[i].action;
      assert Holds(ProcessOf(worlds[i], q)) <==> worlds[i].lock == Some(q);
      assert Holds(ProcessOf(worlds[i], p)) <==> worlds[i].lock == Some(p);
      if q != p {
        OthersUnchanged(worlds[i], q, a, p);
      }
      assert Holds(ProcessOf(worlds[i + 1], p)) <==> worlds[i + 1].lock == Some(p);
      OwnershipIsStable(worlds, events, i + 1, j, p);
    }
  }

  // ----- Observing the owner -----

  /** `owner_probe_addr`: an unspecified address is probed on the loopback of its family. */
  function ProbeAddress(addr: Address): Address {
    match addr.ip
    case V4(0) => addr.(ip := V4(0x7F00_0001))
    case V6(0) => addr.(ip := V6(1))
    case _ => addr
  }

  /** An unspecified address is probed on the loopback of its family, every other one as it is. */
  lemma ProbeMeaning(addr: Address)
    ensures ProbeAddress(addr).port == addr.port
    ensures addr.ip == V4(0) ==> ProbeAddress(addr).ip == V4(127 * 0x100_0000 + 1)
    ensures addr.ip == V6(0) ==> ProbeAddress(addr).ip == V6(1)
    ensures addr.ip != V4(0) && addr.ip != V6(0) ==> ProbeAddress(addr) == addr
  {
  }

  datatype Observation = Observation(metadata: Option<Metadata>, healthy: Option<Address>)

  /** Attempt `i` reads a published listener that answers. */
  predicate Answers(samples: seq<Option<Metadata>>, probe: (nat, Address) -> bool, i: nat)
    requires i < |samples|
  {
    samples[i].Some? && samples[i].value.listenAddr.Some? && probe(i, ProbeAddress(samples[i].value.listenAddr.value))
  }

  /** `observe_existing_instance_with`: the first answering attempt wins, else the latest metadata read is reported. */
  method ObserveExisting(samples: seq<Option<Metadata>>, probe: (nat, Address) -> bool) returns (o: Observation)
    ensures o.healthy.Some? <==> exists i :: 0 <= i < |samples| && Answers(samples, probe, i)
    ensures o.healthy.Some? ==>
              exists i :: 0 <= i < |samples| && Answers(samples, probe, i)
                && (forall k :: 0 <= k < i ==> !Answers(samples, probe, k))
                          && o == Observation(samples[i], samples[i].value.listenAddr)
    ensures o.healthy.Some? ==>
              o.metadata.Some? && o.metadata.value.listenAddr == o.healthy
              && exists i :: 0 <= i < |samples| && samples[i] == o.metadata && probe(i, ProbeAddress(o.healthy.value))
    ensures o.healthy.None? ==>
              forall i :: 0 <= i < |samples| && samples[i].Some? && samples[i].value.listenAddr.Some? ==>
                !probe(i, ProbeAddress(samples[i].value.listenAddr.value))
    ensures o.healthy.None? ==>
              (o.metadata.None? && forall k :: 0 <= k < |samples| ==> samples[k].None?)
              || exists i :: 0 <= i < |samples| && o.metadata == samples[i] && samples[i].Some?
                             && forall k :: i < k < |samples| ==> samples[k].None?
  {
    var latest: Option<Metadata> := None;
    for attempt := 0 to |samples|
      invariant forall k :: 0 <= k < attempt ==> !Answers(samples, probe, k)
      invariant latest.None? ==> forall k :: 0 <= k < attempt ==> samples[k].None?
      invariant latest.Some? ==>
                  exists i :: 0 <= i < attempt && latest == samples[i]
                    && forall k :: i < k < attempt ==> samples[k].None?
    {
      if samples[attempt].Some? {
        var metadata := samples[attempt].value;
        if metadata.listenAddr.Some? && probe(attempt, ProbeAddress(metadata.listenAddr.value)) {
          assert Answers(samples, probe, attempt);
          return Observation(Some(metadata), metadata.listenAddr);
        }
        latest := samples[attempt];
      }
    }
    forall i | 0 <= i < |samples| && samples[i].Some? && samples[i].value.listenAddr.Some?
      ensures !probe(i, ProbeAddress(samples[i].value.listenAddr.value))
    {
      assert !Answers(samples, probe, i);
    }
    return Observation(latest, None);
  }
}
