# Verified models of Foco's planning and runtime cores

This project models the parts of Foco whose correctness depends on several functions or on whole
runs, and proves what they promise. `dafny verify dfyconfig.toml` checks everything.

- **Tool batches** (`WorkspacePaths`, `PatchMarkers`, `ToolCalls`, `ToolNames`, `ToolPlanner`,
  `PlanProperties`, `CallRoles`, `CallPairs`, `Serializability`): the resource locks of a tool call,
  the reject pass, and the grouping of a batch. Every batch is planned as what its calls do to files
  and to the specification demands: it is rejected exactly when two calls clash, and otherwise cut
  into as few groups as possible, readers and editors of one file in batch order. An accepted plan is
  serializable under every interleaving of the atomic steps of the calls in a group.
- **Context budget** (`ContextBudget`): packing messages newest first is the lexicographically
  greatest feasible selection; when a compression plan exists and what it covers.
- **Git** (`IndexPaths`, `IndexTree`, `WrittenTree`, `WorktreeMerge`): the tree written from an index,
  and the merge of a committed agent worktree into the shared workspace.
- **Processes and runs** (`SingleInstance`, `InstanceSteps`, `InstancePublication`, `RunExecutor`,
  `DispatchRegistry`, `AuditedRetry`): state machines whose invariants hold in every interleaving, and
  runs that show they can do what they are for.
- **Text** (`Conclusions`, `PercentCoding`, `Utf8Characters`, `CwdTracker`, `CwdChunks`,
  `Frontmatter`, `FrontmatterLines`, `SkillParsing`, `SkillListing`, `SkillDiscovery`,
  `SkillCollisions`): truncation, OSC 7 tracking, skill parsing and discovery.

`Text`, `ByteStrings`, `Searching`, `Ordering`, `Bags` and `Wrappers` hold shared helpers. Loops of
the program are methods proved against a specification function; objects that change in place are
classes; concurrent protocols are state machines whose scheduler is unconstrained.

## Where the code does less than one might expect

Each of these is proved with the exact condition under which the expectation holds, and the
failures are shown at concrete inputs or runs.

- Path normalisation is not idempotent: a patch marker is normalised twice and an `edit_file` path
  once, so the two lock different keys exactly for paths whose first segment begins or whose last
  segment ends with whitespace, such as `./ a`. The planner runs an edit and a patch of such a path in
  parallel, and of every other path one after the other (`WorkspacePaths.PatchAndEditKeysAgreeIff`,
  `WorkspacePaths.PatchAndEditKeysCanDiffer`, `CallPairs.EditAndPatchOfOnePath`).
- The planner's test for the path `.` never fires (`WorkspacePaths.DisplayIsNeverDot`), and the
  compression planner's exit for zero covered tokens is never taken
  (`ContextBudget.CompressionPlanMeaning`).
- The worktree merge can overwrite or delete uncommitted files, because the status check looks away
  from reserved `.foco` paths, from what lies outside a workspace that is a subdirectory of its
  repository, and from ignored files. Uncommitted files survive exactly when each is in the new tree
  with its content, or is neither in the new tree nor tracked; reserved files (in a three-way merge
  that takes the shared side there) exactly when those the head tracks are unmodified and those
  merely staged are not on disk
  (`WorktreeMerge.SharedRepository.MergeCommitted`). Three runs lose one:
  `WorktreeMerge.StagedRuntimeFileIsLost`, `WorktreeMerge.ChangeOutsideIsOverwritten` and
  `WorktreeMerge.IgnoredFileIsOverwritten`.
- An event sent after the executor found its queue empty and before it returned is lost; nothing
  sent before is (`RunExecutor.OnlyLateEventsAreLost`, `RunExecutor.LateEventIsLost`).
- The tracked terminal directory depends on how output is cut into chunks when the last closed
  sequence does not decode but an earlier one does (`CwdChunks.ChunkIndependenceIff`,
  `CwdChunks.ForgetfulText`).
- The tree written from an index is a legal git tree only if no two paths are equal or nested; the
  code does not check this (`IndexTree.LegalTreeIffPrefixFree`, `IndexTree.FileAndDirectoryOfOneName`).
- Skills of two workspaces can get the same key when one workspace id is the other one followed by a
  colon; discovery then drops the second skill as a duplicate (`SkillParsing.KeysCollideIff`,
  `SkillParsing.TwoSkillsWithOneKey`, `SkillCollisions.SkillOfOtherWorkspaceIsDropped`).

## Model

| member | source | states |
|---|---|---|
| WorkspacePaths.KeysEqualIff | agent/lib.rs:2120-2131 | two spellings get the same lock key exactly when their segments agree up to ASCII case |
| WorkspacePaths.DisplayIdempotentIff | agent/lib.rs:2124-2131 | normalising twice changes nothing exactly when there is no segment, or the first one does not begin and the last one does not end with whitespace; otherwise it shortens the path |
| WorkspacePaths.DisplayIsNeverDot | agent/lib.rs:2020-2033 | a normalised path is never `.`, and is empty exactly when no segment is left |
| WorkspacePaths.PatchAndEditKeysAgreeIff | agent/lib.rs:1944-1972 | a patch and an edit lock the same key for a path exactly under that condition on its segments |
| WorkspacePaths.PatchAndEditKeysCanDiffer | agent/lib.rs:1944-1972 | the path `./ a` gets two different keys |
| PatchMarkers.ExtractMarkerPaths | agent/lib.rs:1976-2033 | the scanning loop computes the specified scan |
| PatchMarkers.MarkerPathsMeaning | agent/lib.rs:1976-2033 | a document yields paths exactly when it is opened, ended, well-formed up to the first end marker and marked at least once; the paths are those of all the markers before it, distinct, in order of first occurrence |
| PatchMarkers.KindMeaning | agent/lib.rs:1986-2015 | the kind of a line by its marker text, and the path behind it |
| PatchMarkers.OpeningLine | agent/lib.rs:1978-1981 | a document is opened exactly by the begin marker on its first line |
| PatchMarkers.ValidMarkerPathIff | agent/lib.rs:2020-2029 | a marker path is accepted exactly when it has a segment and no NUL |
| PatchMarkers.PrintThenExtract | agent/lib.rs:1976-2033 | extracting from a printed list of operations gives their normalised paths in order of first occurrence |
| ToolCalls.ParallelCallsNeverLockWholeWorkspaceForWrite | agent/lib.rs:1481-1483 | only an unparsable patch writes the whole workspace, and it is sequential |
| ToolCalls.EffectMatchesLocks | agent/lib.rs:1564-1732 | a call declares only read locks exactly when its tool is read-only; writers of workspace files take the mutation lease |
| ToolCalls.NoLocksWithoutArgument | agent/lib.rs:1564-1682 | exactly the calls that lack an argument of their tool are planned without its locks |
| ToolCalls.MemoryLocks | agent/lib.rs:2073-2090 | a search and a write of memory conflict exactly when their scopes are equal or one of them is everything |
| ToolCalls.CommandLocks | agent/lib.rs:1564-1682 | reading the output of a command and stopping it conflict exactly when it is the same process |
| ToolCalls.LocksNameTheirResource | agent/lib.rs:1564-1682 | the locks of a tool are on the resources it works on |
| ToolNames.ToolOfName | agent/lib.rs:1564-1732 | every name has the tool that the tables give it |
| ToolPlanner.RejectConflicting | agent/lib.rs:1840-1917 | returns the verdict on the first offending lock pair, or finds none |
| ToolPlanner.VerdictsAreHardConflicts | agent/lib.rs:1852-1903 | the reject pass finds exactly the conflicts that are neither lease against lease nor orderable, in spite of its early exit |
| ToolPlanner.FindConflict | agent/lib.rs:1490-1504 | the pass over all pairs accepts exactly the batches without a hard conflict between parallel calls, and otherwise reports the first such pair |
| ToolPlanner.RecoverableIff | agent/lib.rs:1555-1562 | exactly conflicts between two calls are recoverable |
| ToolPlanner.PushParallelGroup | agent/lib.rs:1829-1838 | flushing the pending calls keeps what is still to be grouped |
| ToolPlanner.CollectGroups | agent/lib.rs:1506-1525 | the grouping loop builds the greedy groups |
| ToolPlanner.PlanToolExecution | agent/lib.rs:1468-1528 | a batch is planned exactly when no two parallel calls conflict beyond repair; every error is recoverable and is that of the first such pair in batch order |
| PlanProperties.GroupsCoverBatch | agent/lib.rs:1506-1525 | the groups concatenate to the whole batch in order |
| PlanProperties.GroupsAreValid | agent/lib.rs:1506-1525 | sequential calls stand alone and no parallel group holds a pair to be ordered |
| PlanProperties.GroupMembersAreIndependent | agent/lib.rs:1763-1917 | distinct calls of one group hold no conflicting locks other than the lease |
| PlanProperties.FewestGroups | agent/lib.rs:1506-1525 | no order-preserving partition into valid groups has fewer groups |
| PlanProperties.AcceptanceIgnoresOrder | agent/lib.rs:1490-1504 | acceptance is invariant under permuting the batch |
| PlanProperties.PlanOrReject | agent/lib.rs:1530-1562 | a batch is either planned whole or every call is rejected, in call order, with its arguments and the conflict that rejects the batch |
| CallRoles.PlanByRoles | agent/lib.rs:1468-1528 | a batch is accepted exactly when no two of its calls clash, and planned by a shortest list of allowed groups; a rejection explains the first two calls that clash |
| CallRoles.EveryCallHasItsRole | agent/lib.rs:1564-1732 | a call runs alone exactly when it has no role, and otherwise takes the locks of its role |
| CallRoles.PairIsAsItsRoles | agent/lib.rs:1776-1917 | two calls are to be ordered, or clash, exactly as their roles say: readers and writers of a file, two edits, an overwrite and another write, users of the specification |
| CallRoles.AcceptedIffNoClash | agent/lib.rs:1490-1504 | a batch is accepted exactly when no two of its calls clash by their roles |
| CallRoles.RejectedForFirstClash | agent/lib.rs:1840-1917 | the error names the first clashing calls in batch order and a file or the specification that both use |
| CallPairs.PlanOfPair | agent/lib.rs:1468-1528 | two parallel calls are rejected if they clash, run in batch order if they are to be ordered, and else run together |
| CallPairs.ReaderAndWriter | agent/lib.rs:1800-1806 | a reader and a writer of one file are planned one after the other, in either order |
| CallPairs.TwoWriters | agent/lib.rs:1808-1814 | two writers of one file are rejected exactly when one of them overwrites it, and else run in batch order |
| CallPairs.DifferentFiles | agent/lib.rs:1763-1785 | calls that use no file or specification in common run together |
| CallPairs.EditAndPatchOfOnePath | agent/lib.rs:1468-1528 | a batch of an edit and a patch of one path is accepted; the two run one after the other exactly when the ends of the path are free of whitespace, and in parallel otherwise |
| Serializability.CoveringResourcesOverlap | agent/lib.rs:2092-2111 | resources that stand for a common cell overlap |
| Serializability.OverlappingResourcesShareACell | agent/lib.rs:2092-2111 | conversely, overlapping resources stand for a common cell, the lease aside |
| Serializability.IndependentFootprints | agent/lib.rs:2092-2118 | independent calls never touch what the other one writes |
| Serializability.StepsCommute | agent/lib.rs:2092-2118 | steps of independent calls that keep to their locks commute |
| Serializability.PermutedSchedule | agent/lib.rs:1468-1528 | schedules with the same steps of commuting calls end in the same state |
| Serializability.AcceptedPlansAreSerializable | agent/lib.rs:1468-1528 | any interleaving inside the groups of an accepted plan ends with the same shared state and the same per-call results as batch order |
| Serializability.FollowsIff | agent/lib.rs:1506-1525 | the schedules in question are exactly the permutations, group by group, of running the calls one by one |
| Serializability.PlanIsSerializable | agent/lib.rs:1468-1528 | whatever plan the planner returns for a batch is serializable in this sense |
| ContextBudget.PackContext | agent/lib.rs:1342-1397 | packing succeeds exactly when the required tokens fit and returns the specified packing |
| ContextBudget.PackingIsGreatest | agent/lib.rs:1342-1397 | the packing is feasible, lexicographically greatest from newest to oldest, and no dropped message would still fit |
| ContextBudget.PackingSplitsTheMessages | agent/lib.rs:1377-1390 | every message is selected or dropped, in order, and the tokens add up |
| ContextBudget.CompressionPlanMeaning | agent/lib.rs:1414-1466 | when a plan exists; it covers exactly the oldest compressible messages, and its tokens, more than none, are those of the selection of the covered messages |
| ContextBudget.TokensAtAreSelected | agent/lib.rs:1452-1455 | the sum over covered messages is what the selection of exactly these messages holds |
| ContextBudget.CompressibleMeaning | agent/lib.rs:1431-1441 | compressible are exactly the messages before the active tools that need not be kept and have tokens |
| ContextBudget.TriggerWithinBudget | agent/lib.rs:2133-2136 | the trigger is four fifths of the budget rounded down until the product saturates, and never exceeds the budget |
| ContextBudget.NothingDroppedUnderTrigger | agent/lib.rs:1342-1466 | messages at or under the default trigger are all kept by packing |
| IndexTree.CollectIndex | app/git_backend.rs:1731-1759 | the loop reports the first bad entry or inserts every entry |
| IndexTree.EntryErrorMeaning | app/git_backend.rs:1736-1755 | an entry is refused for its first reason: conflicted, no tree mode, nothing but slashes |
| IndexPaths.NormalPathIff | app/git_backend.rs:1747-1754 | joining the parts of a path gives it back exactly when it has no leading, trailing or double slash |
| IndexPaths.ApartIff | app/git_backend.rs:1747-1754 | parts are unequal and not nested exactly when the paths are |
| IndexTree.TreeHoldsTheIndex | app/git_backend.rs:1774-1796 | for every index the pending tree holds each file exactly as often as the index does |
| IndexTree.TreeKeepsTheOrder | app/git_backend.rs:1774-1796 | the pending tree holds the files of each path in the order of the index |
| IndexTree.LegalTreeIffPrefixFree | app/git_backend.rs:1731-1796 | names are unique in every directory exactly when no two paths of the index are equal or nested, empty parts aside |
| IndexTree.FileAndDirectoryOfOneName | app/git_backend.rs:1731-1796 | an index with `a` and `a/b` is accepted and its tree has `a` twice |
| WrittenTree.WriteTree | app/git_backend.rs:1798-1820 | writing produces one written subtree per directory in name order, then the files, sorted as a stable sort does |
| WrittenTree.FilesOfOneNameKeepTheirOrder | app/git_backend.rs:1731-1820 | for every path, the files that the written tree has there are the entries of the index at that path, in the order of the index |
| WrittenTree.WriteTreeFromIndex | app/git_backend.rs:1731-1820 | succeeds exactly for indexes without bad entries and writes a tree with exactly their files in the order git demands; else it reports the first bad entry |
| WrittenTree.WrittenIsCanonical | app/git_backend.rs:1798-1820 | in the written tree and all subtrees, of two entries the earlier name is a prefix of the later one or smaller at the first byte where they differ, subtrees named with a slash |
| WrittenTree.WrittenTreeFlattensToTheIndex | app/git_backend.rs:1731-1820 | the written tree has a file of some kind and content at a path exactly when an entry of the index has, empty parts aside |
| WrittenTree.CleanIndexIsRestored | app/git_backend.rs:1731-1820 | for clean paths the files of the written tree are exactly the entries of the index |
| WrittenTree.WrittenTreeIgnoresOrder | app/git_backend.rs:1731-1820 | when no two paths are equal or nested the written tree does not depend on entry order |
| WorktreeMerge.RejectReserved | app/git_backend.rs:1388-1454 | finds the smallest reserved path changed between base and head, exactly when there is one |
| WorktreeMerge.ReservedPaths | app/git_backend.rs:35-38 | a path as git writes it is reserved exactly when it is `.foco` or lies below it |
| WorktreeMerge.TrimmedPathsAreReserved | app/git_backend.rs:35-38 | whitespace at the ends of a path does not matter |
| WorktreeMerge.DottedPathsAreReserved | app/git_backend.rs:35-38 | a leading `./` does not matter |
| WorktreeMerge.SlashedPathsAreReserved | app/git_backend.rs:35-38 | backslashes count as slashes |
| WorktreeMerge.VisiblePaths | app/git_backend.rs:2844-2852 | a workspace in a directory sees that directory and what lies in it, one at the root everything |
| WorktreeMerge.WatchedPaths | app/git_backend.rs:1208-1256 | the status check looks at everything that a workspace sees but reserved paths |
| WorktreeMerge.SharedRepository.RemoveTrackedMissing | app/git_backend.rs:2685-2704 | removes exactly the tracked files that the target lacks |
| WorktreeMerge.SharedRepository.FastForwardTo | app/git_backend.rs:789-871 | which answer or error occurs when, first failing check first; it moves head, index and checkout to the worktree head, or changes nothing |
| WorktreeMerge.SharedRepository.MergeCommitted | app/git_backend.rs:881-979 | which outcome or error occurs when, for a three-way merge by what the merge tool answers; that nothing changes unless a merge succeeds; the new head, index and checkout if one does, clean again; path by path what it leaves alone on disk; exactly when uncommitted files and reserved files survive; and that in a clean workspace only unwatched and ignored files are uncommitted |
| WorktreeMerge.CheckoutMatchesTarget | app/git_backend.rs:958-960 | formerly tracked and target paths match the new head tree |
| WorktreeMerge.CheckoutStaysClean | app/git_backend.rs:958-960 | a clean shared workspace is clean again after a merge |
| WorktreeMerge.PathUnchangedIff | app/git_backend.rs:958-960 | which paths a checkout leaves alone |
| WorktreeMerge.UncommittedSurviveIff | app/git_backend.rs:958-960 | uncommitted files survive a checkout exactly when each is in the target with its content, or neither in the target nor tracked |
| WorktreeMerge.UncommittedInCleanWorkspace | app/git_backend.rs:1208-1256 | in a clean workspace an uncommitted file is not watched by the status check, or untracked and ignored |
| WorktreeMerge.FastForwardIsThreeWay | app/git_backend.rs:873-880 | a merge that takes the other side wherever the shared head equals the base gives the tree of the fast-forward |
| WorktreeMerge.MergedTreeKeepsReserved | app/git_backend.rs:904-904 | the merged tree keeps the reserved files of the shared head if this merge takes its side at reserved paths that the worktree did not change |
| WorktreeMerge.ForwardedTreeKeepsReserved | app/git_backend.rs:1388-1454 | a worktree head that passes the reject pass has the reserved files of its base |
| WorktreeMerge.ReservedFilesUnchangedIff | app/git_backend.rs:1208-1256 | a checkout that keeps the reserved files of the head leaves those on disk as they are exactly when head-tracked ones are unmodified and merely staged ones are not on disk |
| WorktreeMerge.StagedRuntimeFileIsLost | app/git_backend.rs:2685-2704 | a run of the merge: a staged but uncommitted runtime file passes the status check and is deleted |
| WorktreeMerge.ChangeOutsideIsOverwritten | app/git_backend.rs:2844-2852 | a run of the merge: a change outside the workspace directory passes the status check and is overwritten |
| WorktreeMerge.IgnoredFileIsOverwritten | app/git_backend.rs:1208-1256 | a run of the merge: an ignored file passes the status check and is overwritten |
| SingleInstance.MetadataChangesOnlyByTheLockHolder | app/single_instance.rs:470-501 | only the lock holder changes the metadata, by renaming its own complete record; a contended process changes nothing |
| SingleInstance.StepKeepsInvariant | app/single_instance.rs:234-268 | every step of every process keeps lock, metadata and writer invariants |
| SingleInstance.MetadataOfRuns | app/single_instance.rs:470-501 | the metadata file is what was found at the start until the first rename and a whole valid record from then on |
| SingleInstance.RunsAreSafe | app/single_instance.rs:234-304 | in every interleaving and whatever the metadata file held before, there is at most one holder, the file is untouched or one valid record, and it carries the owner's pid after acquisition |
| SingleInstance.OwnershipIsStable | app/single_instance.rs:36-60 | an owner that neither drops nor crashes keeps the lock and its pid in the metadata |
| InstancePublication.RenamePublishes | app/single_instance.rs:52-60 | in every run a rename ends a write begun by its process and leaves the starting record if that was an acquisition, the ready record with the published address if it was a publication |
| InstancePublication.FirstFreeSuffixIsUsed | app/single_instance.rs:503-550 | creating a temporary file skips the names that are taken and uses the first free one within the attempts |
| InstancePublication.SomeRunPublishes | app/single_instance.rs:234-304 | from every initial world with free temporary names, any process can acquire the lock and publish any address |
| InstanceSteps.StepsOfEveryStage | app/single_instance.rs:470-501 | which steps are possible at each stage of a write; a complete temporary file is always there to be renamed |
| InstanceSteps.CrashFreesTheLock | app/single_instance.rs:36-50 | a crash frees the lock at any stage and leaves every file as it is |
| InstanceSteps.DropFreesTheLock | app/single_instance.rs:36-50 | dropping the guard frees the lock and leaves the record |
| InstanceSteps.FailureOfAWrite | app/single_instance.rs:234-304 | a failed write ends an acquisition and frees the lock, and leaves an owner the owner; the metadata stays |
| InstanceSteps.FilesOfAFailure | app/single_instance.rs:485-500 | which temporary file a failed write leaves |
| InstanceSteps.OneTempFile | app/single_instance.rs:470-551 | a step touches no temporary file but the one being written |
| InstanceSteps.FilesOfAWrite | app/single_instance.rs:470-501 | what the temporary file holds after each step of a write |
| InstanceSteps.SuffixesGrow | app/single_instance.rs:514-520 | every attempt uses up a suffix |
| SingleInstance.ObserveExisting | app/single_instance.rs:343-370 | the first answering attempt wins, else the latest metadata read is reported |
| SingleInstance.ProbeMeaning | app/single_instance.rs:407-414 | an unspecified address is probed on the loopback of its family |
| SingleInstance.ValidRecords | app/single_instance.rs:97-118 | the valid records are the starting ones without and the ready ones with an address |
| RunExecutor.StepKeepsInvariant | agent/executor.rs:177-198 | every step keeps the order and conservation of events |
| RunExecutor.HandedIsPrefixOfEmitted | agent/executor.rs:140-198 | in every schedule the sink sees a prefix of the emitted events, in order |
| RunExecutor.OwnOutcomeMeansAllDelivered | agent/executor.rs:179-187 | when the task's outcome is returned everything emitted up to completion was delivered, in order |
| RunExecutor.OnlyLateEventsAreLost | agent/executor.rs:180-186 | exactly the events sent between the last receive and the return are not delivered |
| RunExecutor.LateEventIsLost | agent/executor.rs:180-186 | a run in which such an event is lost |
| RunExecutor.RefusalEndsTheRun | agent/executor.rs:179-196 | a refusal of the sink stops delivery, sets cancellation and gives a failure not to be retried |
| RunExecutor.ReturnIsFinal | agent/executor.rs:177-198 | after the loop decides nothing is delivered and the outcome stands |
| RunExecutor.DrainDeliversEverything | agent/executor.rs:179-187 | after completion an accepting sink receives the whole queue and the loop goes on to return the outcome |
| RunExecutor.EventsCanBeDelivered | agent/executor.rs:188-196 | whatever a task emits, some schedule hands all of it over while the task is still running |
| RunExecutor.ClosedEmitterStillReturns | agent/executor.rs:188-191 | when nobody can emit any more, the loop waits for the task and returns its outcome |
| RunExecutor.LoopGoesOn | agent/executor.rs:177-198 | once the task has completed, the loop has a step to take until it has returned |
| RunExecutor.CancellationStopsNothing | agent/executor.rs:177-198 | a cancellation from outside leaves every step of task and loop as it was |
| RunExecutor.TasksAreFree | agent/executor.rs:140-166 | a task and its emitters emit, hang up and complete whenever they want |
| DispatchRegistry.RegisterKeepsValid | app/plan_runtime.rs:84-131 | registering keeps runs and live leases in step |
| DispatchRegistry.DropRemovesOnlyItsOwn | app/plan_runtime.rs:149-155 | dropping a lease frees exactly its own attempt |
| DispatchRegistry.CancelSignalsExactlyThePlan | app/plan_runtime.rs:133-146 | a cancellation signals the live leases of its plan and nobody else |
| DispatchRegistry.RunsKeepValid | app/plan_runtime.rs:83-155 | in every run the registered runs are the live leases, one per attempt |
| DispatchRegistry.SignalsArePermanent | app/plan_runtime.rs:133-146 | a signalled lease stays signalled |
| DispatchRegistry.SignalsHaveACause | app/plan_runtime.rs:133-146 | a message on a channel comes from a cancellation of its plan while its lease was live |
| DispatchRegistry.Registry.RegisterRun | app/plan_runtime.rs:84-131 | a registration succeeds exactly when the deadline is valid and not over and the attempt is not registered; it adds one run with a channel of its own, or names the first reason and changes nothing |
| DispatchRegistry.Registry.CancelPlan | app/plan_runtime.rs:133-146 | the loop over the runs signals as specified |
| DispatchRegistry.Registry.DropLease | app/plan_runtime.rs:149-155 | the drop removes the lease's entry |
| AuditedRetry.CountAttempts | app/structured_llm_outcome.rs:111-141 | the counted attempts never exceed the published maximum and at most one repair is scheduled |
| AuditedRetry.ContinuationsDecrease | app/structured_llm_outcome.rs:79-104 | every continuation lowers (repair unused, retries left) lexicographically |
| AuditedRetry.ActionMeaning | app/structured_llm_outcome.rs:79-104 | when a failure is repaired, retried or final |
| AuditedRetry.MaxAttemptsFormula | app/structured_llm_outcome.rs:67-72 | the maximum is 2b + 2, saturating at 2^32 - 1 |
| AuditedRetry.RunIsBounded | app/structured_llm_outcome.rs:79-141 | attempts and repairs of every run are bounded by what is left of both budgets |
| AuditedRetry.BoundIsAttained | app/structured_llm_outcome.rs:67-141 | some failure sequence attains the maximum, with one repair |
| Conclusions.Truncate | app/plan_runtime.rs:1988-2018 | returns everything if it fits, else the notice and the longest fitting suffix of whole blocks, never above the limit |
| Conclusions.CandidateGrows | app/plan_runtime.rs:1999-2010 | adding a block always lengthens the candidate, which justifies the early break |
| Conclusions.NoticeShrinksByAtMostOne | app/plan_runtime.rs:2020-2029 | omitting one block less shortens the notice by at most one character |
| Conclusions.DecimalIsNumeral | app/plan_runtime.rs:2020-2029 | the printed number is the decimal numeral of the number of omitted conclusions |
| Conclusions.CandidateText | app/plan_runtime.rs:1999-2029 | the text of a candidate: the notice, its noun in the right number, and the blocks after blank lines |
| PercentCoding.DecodeLoop | app/terminal.rs:560-578 | the loop computes the specified decoding |
| PercentCoding.DecodingInvertsEncoding | app/terminal.rs:560-587 | decoding yields a string exactly when the input is a percent-encoding of it |
| PercentCoding.HexDigits | app/terminal.rs:580-587 | the hexadecimal digits and their values |
| Utf8Characters.Utf8Iff | app/terminal.rs:577-577 | a byte string is accepted exactly when it encodes a sequence of Unicode characters |
| CwdTracker.ExtractLatestCwd | app/terminal.rs:538-558 | the loop decodes the last closed sequence |
| CwdTracker.ScanExtends | app/terminal.rs:538-558 | sequences closed in an input keep place and value in every extension |
| CwdTracker.CutAfterClosed | app/terminal.rs:538-558 | cutting the input after a closed sequence leaves exactly the sequences up to it |
| CwdTracker.SequenceBytes | app/terminal.rs:538-558 | the bytes that open and close a sequence |
| CwdChunks.Tracker.Observe | app/terminal.rs:514-535 | buffer, remembered directory and report after a chunk; the buffer is the end of the text and at most 16384 bytes long |
| CwdChunks.NextBufferKeepsTheEnd | app/terminal.rs:514-526 | up to 8192 bytes everything is kept; beyond, the last 4096 characters, or all if there are fewer |
| CwdChunks.BufferIsTheText | app/terminal.rs:514-526 | below the threshold the buffer is the whole text |
| CwdChunks.ChunkIndependenceIff | app/terminal.rs:514-558 | below the threshold the tracked directory is the same for all ways of chunking exactly when nothing is closed, the last sequence decodes, or none does |
| CwdChunks.ForgetfulText | app/terminal.rs:514-558 | a text that leaves the tracker in one directory or nowhere, depending on its chunks |
| SkillParsing.ParseId | app/skills.rs:906-933 | the id-only parser computes its specification; an id it returns is valid |
| Frontmatter.FindField | app/skills.rs:935-972 | the value is that of the first line of the field; the field is missing exactly when no line names it and empty exactly when that line has no value |
| Frontmatter.IsBlockScalarIndicator | app/skills.rs:1033-1063 | accepts exactly the block headers |
| Frontmatter.BlockHeaderIff | app/skills.rs:1033-1063 | a block header is `>` or a bar and behind it at most one sign and one digit from 1 to 9 |
| Frontmatter.QuotesAreDropped | app/skills.rs:1173-1184 | exactly a pair of equal quotes around a value is dropped |
| Frontmatter.StripInlineComment | app/skills.rs:1067-1077 | cuts at the first `#` at the start or after whitespace |
| Frontmatter.CollectContinuation | app/skills.rs:1106-1171 | folds the text lines before the first line that ends the description |
| Frontmatter.FindDescription | app/skills.rs:982-1031 | the description computes its specification |
| Frontmatter.DescriptionIsTrimmed | app/skills.rs:982-1171 | a description has text and no whitespace at its ends; it is missing exactly when no line names it |
| Frontmatter.SiblingsAreNotSwallowed | app/skills.rs:1079-1171 | what stands from the next top-level key on has no influence on the description |
| Frontmatter.ContinuationIsFolded | app/skills.rs:1106-1171 | a description on the lines after its own, closed by the next field, is folded into one line; in a block scalar the lines are indented |
| FrontmatterLines.LineMeaning | app/skills.rs:935-972 | comments and lines without a colon say nothing; other lines give the trimmed text before the first colon and what is behind it |
| FrontmatterLines.TopLevelKeyIff | app/skills.rs:1079-1104 | a description is bounded exactly by unindented lines with a one-word key and a gap before the value, comments aside |
| FrontmatterLines.CommentsAreSkipped | app/skills.rs:1106-1171 | a blank line or an unindented comment anywhere below the description line changes nothing |
| FrontmatterLines.CommentIsDropped | app/skills.rs:1067-1077 | a comment behind a value is dropped with the gap before it; a value without one is kept |
| FrontmatterLines.FormOfValue | app/skills.rs:982-1031 | a description with a value on its line is a block scalar exactly if the value without its comment is a header, and else that value without quotes |
| FrontmatterLines.FormOfNothing | app/skills.rs:1021-1024 | a description without a value on its line is the text below |
| FrontmatterLines.HeaderLine | app/skills.rs:1005-1010 | the header of a block scalar may be followed by a comment |
| SkillParsing.CutMeaning | app/skills.rs:857-888 | the frontmatter ends at the first delimiter after the opening one, and nothing of the document is lost |
| SkillParsing.ParseSkill | app/skills.rs:857-904 | the full parser computes its specification; an accepted skill has a valid id and a description with text |
| SkillParsing.ParsersAgreeOnTheId | app/skills.rs:857-933 | an accepted document has the id the id-only parser returns; it is accepted exactly when that one accepts it, it has instructions and a description |
| SkillParsing.PrintedDocumentIsParsed | app/skills.rs:857-1171 | parsing a printed document gives back its id and description |
| SkillParsing.DocumentWithoutInstructions | app/skills.rs:857-933 | a printed document without instructions is refused for that reason, and its id can still be read |
| SkillParsing.BomIsDropped | app/skills.rs:858-858 | one byte order mark at the start is dropped |
| SkillParsing.KeysCollideIff | app/skills.rs:608-617 | valid ids of two scopes can get one key exactly when one workspace id is the other one, a colon and more without whitespace |
| SkillParsing.ConfiguredKeysCollideIff | app/skills.rs:608-617 | for workspace ids without whitespace, the colon alone decides |
| SkillParsing.TwoSkillsWithOneKey | app/skills.rs:608-617 | `a:x` of workspace `w` and `x` of workspace `w:a` have one key |
| SkillParsing.KeysAreInjectivePerScope | app/skills.rs:608-617 | within a scope the key determines the id |
| SkillDiscovery.Discover | app/skills.rs:403-479 | the loops compute the sorted listing, the errors and the keys to disable of everything found |
| SkillDiscovery.DiscoverSkills | app/skills.rs:403-479 | skills are sorted with distinct keys, the first file of a key wins, exactly the keys without a valid file are required to be disabled, the errors are those of broken and duplicate files in order, and every file is listed as valid or reported |
| SkillListing.DiscoveryMeaning | app/skills.rs:403-479 | for every sequence of candidates: which keys are listed, from which file, and as valid or invalid |
| SkillDiscovery.ErrorsMeaning | app/skills.rs:410-451 | errors are those of broken roots and files and of valid files whose key was taken, in order |
| SkillDiscovery.CandidateOrder | app/skills.rs:463-468 | global skills come first, then by workspace name, id and path |
| SkillDiscovery.NothingIsLost | app/skills.rs:410-451 | every root that cannot be read and every file gives a listed valid skill or one error |
| SkillDiscovery.FindingsOfRoot | app/skills.rs:410-421 | a root that cannot be read gives one error, another one a finding for every file, in order |
| SkillCollisions.SecondSkillIsDropped | app/skills.rs:424-436 | of two valid skills with one key the first is listed and the second reported, whatever their workspaces |
| SkillCollisions.SkillOfOtherWorkspaceIsDropped | app/skills.rs:424-436 | whenever one workspace id extends another by a colon, there are documents with different ids in the two workspaces of which only the first is listed |
| SkillCollisions.BrokenSkillIsDisabled | app/skills.rs:403-479 | a document without instructions is reported, listed as invalid under its id, and its key required to be disabled |

## Left out

- Tool execution, permissions and the other tables of `agent/lib.rs`: they are settled by reading them.
- Display casing and the message texts of conflict errors; errors carry the lock key and the call ids.
- Tools with the same treatment in every table of the planner share one constructor.
- Token counts are unbounded naturals: sums of estimates beyond 2^64 are not modelled.
- Serializability takes as given that a call which may run in parallel keeps to its declared locks, the lease aside; a call takes a given number of atomic steps, finished calls stuttering.
- IndexTree.PendingTree is modelled as a value: its update in place through nested maps is not captured.
- Object ids are modelled as the content they address; tree writes never fail.
- Git objects, references, `git merge-tree`, status and checkout are atomic and act on flat maps of regular files; modes, symbolic links, directory collisions and partial checkouts are not modelled. A checkout writes over what stands on disk. Nothing is assumed of `git merge-tree` but where a row says so.
- The operating-system lock and rename are atomic steps; JSON encoding is a complete-or-partial record; one thread per process publishes.
- Health probes of a lock owner are given as a function of the attempt and the probed address.
- The executor's task, emitter and sink are free steps; their payloads and the event associations are opaque.
- Poisoned registry locks, clocks and deadline parsing: a registration is told what its deadline turned out to be.
- Backoff, jitter and the classification of provider errors.
- Skill files are read once: discovery reads a broken document a second time for its id, taken here to have the same content. Error texts and the listing of directories are not modelled.
- Terminal sockets, sessions and prompt text.
- Plan storage and dispatch beyond the registry and the truncation of conclusions; hooks, settings, logging and the web client.
