/** Integrating a committed agent worktree into the shared workspace (app/git_backend.rs). */
module WorktreeMerge {
  import opened Wrappers
  import opened Text
  import opened Ordering

  type Path = string

  /** Trees, indexes and checkouts are flat maps from paths to the content of regular files. */
  type Files = map<Path, string>

  type CommitId = nat

  datatype Commit = Commit(tree: Files, parents: seq<CommitId>)

  function DropDotSlash(s: string): string {
    if StartsWith(s, "./") then DropDotSlash(s[2..]) else s
  }

  /** `is_foco_reserved_repo_path`. */
  predicate Reserved(path: Path) {
    var normalized := Replace(DropDotSlash(Trim(path)), '\\', '/');
    normalized == ".foco" || StartsWith(normalized, ".foco/")
  }

  /** A path as git writes it is reserved exactly when it is `.foco` or lies below it. */
  lemma ReservedPaths(path: Path)
    requires Trimmed(path) && '\\' !in path && !StartsWith(path, "./")
    ensures Reserved(path) <==> path == ".foco" || StartsWith(path, ".foco/")
  {
    assert Replace(path, '\\', '/') == path;
  }

  lemma TrimmedPathsAreReserved(path: Path)
    ensures Reserved(Trim(path)) <==> Reserved(path)
  {
    assert Trim(Trim(path)) == Trim(path);
  }

  lemma DottedPathsAreReserved(path: Path)
    requires Trimmed(path) && path != ""
    ensures Reserved("./" + path) <==> Reserved(path)
  {
    var dotted := "./" + path;
    assert dotted[2..] == path && StartsWith(dotted, "./");
    assert dotted[|dotted| - 1] == path[|path| - 1];
    assert Trim(dotted) == dotted;
    assert DropDotSlash(dotted) == DropDotSlash(path);
  }

  lemma SlashedPathsAreReserved(path: Path)
    requires Trimmed(path) && !StartsWith(path, "./") && !StartsWith(Replace(path, '\\', '/'), "./")
    ensures Reserved(Replace(path, '\\', '/')) <==> Reserved(path)
  {
    var slashed := Replace(path, '\\', '/');
    assert Replace(slashed, '\\', '/') == slashed;
    assert Trim(slashed) == slashed;
    assert DropDotSlash(slashed) == slashed && DropDotSlash(path) == path;
  }

  /** Present in both with the same content, or in neither. */
  predicate Same(a: Files, b: Files, p: Path) {
    (p in a <==> p in b) && (p in a ==> a[p] == b[p])
  }

  /** Whether a repository path lies in the workspace, a directory of the repository or its root. */
  predicate Visible(directory: Path, path: Path) {
    directory == "" || path == directory || StartsWith(path, directory + "/")
  }

  /** A workspace that is the whole repository sees everything, another one what lies in its directory. */
  lemma VisiblePaths(directory: Path, path: Path)
    ensures Visible("", path)
    ensures directory != "" ==>
              Visible(directory, directory) && Visible(directory, directory + "/" + path)
    ensures directory != "" && Visible(directory, path) ==>
              path == directory || path == directory + "/" + path[|directory| + 1..]
  {
  }

  /** The status check looks away from reserved paths and from what lies outside the workspace. */
  predicate Watched(directory: Path, path: Path) {
    Visible(directory, path) && !Reserved(path)
  }

  /** In a workspace at the root everything but reserved paths is watched, in another one what lies in its directory. */
  lemma WatchedPaths(directory: Path, path: Path)
    ensures Watched("", path) <==> !Reserved(path)
    ensures directory != "" ==> (Watched(directory, directory + "/" + path) <==> !Reserved(directory + "/" + path))
    ensures directory != "" && Watched(directory, path) ==>
              path == directory || path == directory + "/" + path[|directory| + 1..]
  {
    VisiblePaths(directory, path);
  }

  /** Nothing to report on watched paths: head, index and checkout agree and every untracked file is ignored. */
  ghost predicate Clean(directory: Path, head: Files, index: Files, workdir: Files, ignored: set<Path>) {
    forall p: Path :: Watched(directory, p) ==>
      Same(head, index, p) && (p in index ==> Same(index, workdir, p)) && (p !in index && p in workdir ==> p in ignored)
  }

  /** Reserved paths on which two trees differ. */
  predicate Offends(base: Files, head: Files, p: Path) {
    Reserved(p) && !Same(base, head, p)
  }

  datatype MergeError =
    | UnknownBase | WorktreeUnborn | ReservedPathCommitted(path: Path) | SharedUnborn | SharedDirty | WorktreeDirty
    | SharedHeadMoved | DetachedHead | MergeToolFailed

  datatype Outcome =
    | NoChanges
    | FastForward(commit: CommitId)
    | ThreeWayMerged(commit: CommitId)
    | Conflicted(paths: seq<Path>)

  datatype TreeMerge = Merged(tree: Files) | Conflict(paths: seq<Path>) | ToolError

  /** `git merge-tree`, given the base, ours and theirs. */
  type MergeTool = (Files, Files, Files) -> TreeMerge

  /** A linked worktree: its head commit and whether its status is clean. */
  datatype Worktree = Worktree(head: Option<CommitId>, clean: bool)

  /** The checkout after replacing the tracked files by those of `target`. */
  function Checkout(workdir: Files, index: Files, target: Files): Files {
    (workdir - (index.Keys - target.Keys)) + target
  }

  lemma SmallestPath(paths: set<Path>) returns (m: Path)
    requires paths != {}
    ensures m in paths && forall p :: p in paths ==> StringLe(m, p)
  {
    StringsAreOrdered();
    m := Smallest(StringLe, paths);
  }

  /** `reject_committed_foco_runtime_paths`: collects the offending paths of both trees and reports the smallest. */
  method RejectReserved(base: Files, head: Files) returns (offending: Option<Path>)
    ensures offending.Some? ==>
              Offends(base, head, offending.value)
              && forall p :: Offends(base, head, p) ==> StringLe(offending.value, p)
    ensures offending.None? ==> forall p :: !Offends(base, head, p)
  {
    var found: set<Path> := {};
    var pending := base.Keys + head.Keys;
    while pending != {}
      invariant pending <= base.Keys + head.Keys
      invariant forall p :: p in found ==> Offends(base, head, p)
      invariant forall p :: p in base.Keys + head.Keys && p !in pending && Offends(base, head, p) ==> p in found
    {
      var p :| p in pending;
      pending := pending - {p};
      if Reserved(p) {
        if (p in base) != (p in head) {
          found := found + {p};
        } else if base[p] != head[p] {
          found := found + {p};
        }
      }
    }
    assert forall p :: Offends(base, head, p) ==> p in base.Keys + head.Keys;
    if found == {} {
      return None;
    }
    ghost var smallest := SmallestPath(found);
    var p :| p in found && forall q :: q in found ==> StringLe(p, q);
    return Some(p);
  }

  /** What the merge demands before it changes anything. */
  ghost predicate Preconditions(shared: SharedRepository, worktree: Worktree, base: CommitId)
    reads shared
  {
    base in shared.commits
    && worktree.head.Some? && worktree.head.value in shared.commits && worktree.clean
    && (forall p :: !Offends(shared.commits[base].tree, shared.commits[worktree.head.value].tree, p))
    && shared.head.Some? && shared.SharedClean()
  }

  ghost predicate NamesSmallestOffence(base: Files, head: Files, error: MergeError) {
    error.ReservedPathCommitted? && Offends(base, head, error.path)
    && forall p :: Offends(base, head, p) ==> StringLe(error.path, p)
  }

  /** The first precondition that fails decides the error; of several offending paths the smallest is reported. */
  ghost predicate Refuses(shared: SharedRepository, worktree: Worktree, base: CommitId, error: MergeError)
    reads shared
    requires worktree.head.Some? ==> worktree.head.value in shared.commits
  {
    if base !in shared.commits then error.UnknownBase?
    else if worktree.head.None? then error.WorktreeUnborn?
    else
      var before, after := shared.commits[base].tree, shared.commits[worktree.head.value].tree;
      if exists p :: Offends(before, after, p) then
        NamesSmallestOffence(before, after, error)
      else if shared.head.None? then error.SharedUnborn?
      else if !shared.SharedClean() then error.SharedDirty?
      else error.WorktreeDirty?
  }

  /** What fast-forwarding answers: the first check that fails decides. */
  ghost predicate Forwards(
    shared: SharedRepository, worktree: Worktree, base: CommitId, r: Result<Option<CommitId>, MergeError>)
    reads shared
    requires worktree.head.Some? ==> worktree.head.value in shared.commits
  {
    if worktree.head.None? then r == Err(WorktreeUnborn)
    else
      var target := worktree.head.value;
      if target != base && base !in shared.commits then r == Err(UnknownBase)
      else if target != base && exists p :: Offends(shared.commits[base].tree, shared.commits[target].tree, p) then
        r.Err? && NamesSmallestOffence(shared.commits[base].tree, shared.commits[target].tree, r.error)
      else if shared.head.None? then r == Err(SharedUnborn)
      else if shared.head.value != base then r == Err(SharedHeadMoved)
      else if !shared.SharedClean() then r == Err(SharedDirty)
      else if !worktree.clean then r == Err(WorktreeDirty)
      else if target == base then r == Ok(None)
      else r == if shared.onBranch then Ok(Some(target)) else Err(DetachedHead)
  }

  /** The merge has moved the shared head. */
  predicate Moved(r: Result<Outcome, MergeError>) {
    r.Ok? && (r.value.FastForward? || r.value.ThreeWayMerged?)
  }

  /** What the outcome of the tree merge leads to. */
  function MergeResult(merged: TreeMerge, onBranch: bool, newId: CommitId): Result<Outcome, MergeError> {
    match merged
    case ToolError => Err(MergeToolFailed)
    case Conflict(paths) => Ok(Conflicted(paths))
    case Merged(_) => if onBranch then Ok(ThreeWayMerged(newId)) else Err(DetachedHead)
  }

  class SharedRepository {
    var commits: map<CommitId, Commit>
    var head: Option<CommitId>
    var onBranch: bool
    var index: Files
    var workdir: Files
    const directory: Path
    const ignored: set<Path>

    predicate Valid()
      reads this
    {
      head.Some? ==> head.value in commits
    }

    ghost predicate SharedClean()
      reads this
    {
      head.Some? && head.value in commits && Clean(directory, commits[head.value].tree, index, workdir, ignored)
    }

    ghost function HeadTree(): Files
      reads this
      requires head.Some? && head.value in commits
    {
      commits[head.value].tree
    }

    /** What the merge tool makes of the base, the shared head and the worktree head. */
    ghost function ThreeWay(merge: MergeTool, base: CommitId, worktree: Worktree): TreeMerge
      reads this
      requires base in commits && head.Some? && head.value in commits
      requires worktree.head.Some? && worktree.head.value in commits
    {
      merge(commits[base].tree, commits[head.value].tree, commits[worktree.head.value].tree)
    }

    constructor (
      commits: map<CommitId, Commit>, head: Option<CommitId>, onBranch: bool, index: Files, workdir: Files,
      directory: Path, ignored: set<Path>)
      requires head.Some? ==> head.value in commits
      ensures Valid()
      ensures this.commits == commits && this.head == head && this.onBranch == onBranch
      ensures this.index == index && this.workdir == workdir && this.directory == directory && this.ignored == ignored
    {
      this.commits, this.head, this.onBranch := commits, head, onBranch;
      this.index, this.workdir, this.directory, this.ignored := index, workdir, directory, ignored;
    }

    /** `remove_tracked_files_missing_from_target`. */
    method RemoveTrackedMissing(target: Files)
      modifies this`workdir
      ensures workdir == old(workdir) - (index.Keys - target.Keys)
    {
      var pending := index.Keys;
      while pending != {}
        invariant pending <= index.Keys
        invariant workdir == old(workdir) - (index.Keys - pending - target.Keys)
      {
        var p :| p in pending;
        pending := pending - {p};
        if p !in target {
          workdir := workdir - {p};
        }
      }
    }

    /** Replaces the tracked files, writes the index and moves the branch. */
    method Advance(target: Files, commit: CommitId)
      modifies this`workdir, this`index, this`head
      ensures workdir == Checkout(old(workdir), old(index), target)
      ensures index == target && head == Some(commit)
    {
      RemoveTrackedMissing(target);
      workdir := workdir + target;
      index := target;
      head := Some(commit);
    }

    /** `fast_forward_shared_workspace_to_agent_worktree`; `clean` is what the status of the shared workspace says. */
    method FastForwardTo(worktree: Worktree, base: CommitId, clean: bool)
      returns (r: Result<Option<CommitId>, MergeError>)
      requires Valid() && (clean <==> SharedClean())
      requires worktree.head.Some? ==> worktree.head.value in commits
      modifies this`workdir, this`index, this`head
      ensures Valid()
      ensures r.Ok? && r.value.Some? ==>
                r.value == worktree.head && head == worktree.head && old(head) == Some(base)
                && workdir == Checkout(old(workdir), old(index), commits[r.value.value].tree)
                && index == commits[r.value.value].tree
      ensures !(r.Ok? && r.value.Some?) ==> head == old(head) && index == old(index) && workdir == old(workdir)
      ensures old(Forwards(this, worktree, base, r))
    {
      if worktree.head.None? {
        return Err(WorktreeUnborn);
      }
      var target := worktree.head.value;
      if target != base {
        if base !in commits {
          return Err(UnknownBase);
        }
        var offending := RejectReserved(commits[base].tree, commits[target].tree);
        if offending.Some? {
          return Err(ReservedPathCommitted(offending.value));
        }
      }
      if head.None? {
        return Err(SharedUnborn);
      }
      if head.value != base {
        return Err(SharedHeadMoved);
      }
      if !clean {
        return Err(SharedDirty);
      }
      if !worktree.clean {
        return Err(WorktreeDirty);
      }
      if target == base {
        return Ok(None);
      }
      if !onBranch {
        return Err(DetachedHead);
      }
      Advance(commits[target].tree, target);
      return Ok(Some(target));
    }

    /**
     The part of the merge after its checks: a fast-forward if the shared head is the base, else a
     three-way merge.
     */
    method Integrate(worktree: Worktree, base: CommitId, clean: bool, merge: MergeTool, newId: CommitId)
      returns (r: Result<Outcome, MergeError>)
      requires Valid() && (clean <==> SharedClean()) && newId !in commits
      requires Preconditions(this, worktree, base) && worktree.head != Some(base)
      modifies this`commits, this`workdir, this`index, this`head
      ensures Valid()
      ensures r == if old(head) != Some(base) then MergeResult(old(ThreeWay(merge, base, worktree)), onBranch, newId)
                   else if onBranch then Ok(FastForward(worktree.head.value))
                   else Err(DetachedHead)
      ensures !Moved(r) ==>
                commits == old(commits) && head == old(head) && index == old(index) && workdir == old(workdir)
      ensures Moved(r) ==>
                head.Some? && head.value in commits && r.value.commit == head.value
                && index == HeadTree() && workdir == Checkout(old(workdir), old(index), HeadTree())
      ensures r.Ok? && r.value.FastForward? ==> commits == old(commits) && head == worktree.head
      ensures r.Ok? && r.value.ThreeWayMerged? ==>
                head == Some(newId) && old(ThreeWay(merge, base, worktree)).Merged?
                && commits == old(commits)[newId := Commit(
                     old(ThreeWay(merge, base, worktree)).tree, [old(head.value), worktree.head.value])]
    {
      var ours, theirs := head.value, worktree.head.value;
      if ours == base {
        var forwarded := FastForwardTo(worktree, base, clean);
        if forwarded.Err? {
          return Err(forwarded.error);
        }
        return Ok(FastForward(forwarded.value.value));
      }
      match merge(commits[base].tree, commits[ours].tree, commits[theirs].tree)
      case ToolError =>
        return Err(MergeToolFailed);
      case Conflict(paths) =>
        return Ok(Conflicted(paths));
      case Merged(tree) =>
        if !onBranch {
          return Err(DetachedHead);
        }
        Advance(tree, newId);
        commits := commits[newId := Commit(tree, [ours, theirs])];
        return Ok(ThreeWayMerged(newId));
    }

    /**
     `merge_committed_agent_worktree_into_shared_workspace`; `merge` stands for `git merge-tree` and
     `newId` for the id of a commit that does not exist yet.
     */
    method MergeCommitted(worktree: Worktree, base: CommitId, clean: bool, merge: MergeTool, newId: CommitId)
      returns (r: Result<Outcome, MergeError>)
      requires Valid() && (clean <==> SharedClean())
      requires worktree.head.Some? ==> worktree.head.value in commits
      requires newId !in commits
      modifies this`commits, this`workdir, this`index, this`head
      ensures Valid()
      // Nothing changes unless a merge succeeds.
      ensures r.Err? || r.value.NoChanges? || r.value.Conflicted? ==>
                commits == old(commits) && head == old(head) && index == old(index) && workdir == old(workdir)
      // Success needs the preconditions.
      ensures r.Ok? ==> old(Preconditions(this, worktree, base))
      // Which outcome it is.
      ensures r.Ok? ==> (r.value.NoChanges? <==> worktree.head == Some(base))
      ensures r.Ok? ==> (r.value.FastForward? <==> old(head) == Some(base) && worktree.head != Some(base))
      ensures old(Preconditions(this, worktree, base)) && worktree.head == Some(base) ==> r.Ok?
      ensures old(Preconditions(this, worktree, base)) && worktree.head != Some(base) ==>
                r == if old(head) != Some(base) then MergeResult(old(ThreeWay(merge, base, worktree)), onBranch, newId)
                     else if onBranch then Ok(FastForward(worktree.head.value))
                     else Err(DetachedHead)
      // What the answers of the merge tool lead to.
      ensures old(Preconditions(this, worktree, base)) && worktree.head != Some(base) && old(head) != Some(base) ==>
                var merged := old(ThreeWay(merge, base, worktree));
                (forall paths :: r == Ok(Conflicted(paths)) <==> merged == Conflict(paths))
                && (r == Err(MergeToolFailed) <==> merged.ToolError?)
                && (r == Ok(ThreeWayMerged(newId)) <==> merged.Merged? && onBranch)
                && (r == Err(DetachedHead) <==> merged.Merged? && !onBranch)
      // Why it is refused.
      ensures !old(Preconditions(this, worktree, base)) ==> r.Err? && old(Refuses(this, worktree, base, r.error))
      // What a success leaves behind.
      ensures r.Ok? && r.value.FastForward? ==>
                commits == old(commits) && head == worktree.head == Some(r.value.commit)
      ensures r.Ok? && r.value.ThreeWayMerged? ==>
                r.value.commit == newId && head == Some(newId) && old(ThreeWay(merge, base, worktree)).Merged?
                && commits == old(commits)[newId := Commit(
                     old(ThreeWay(merge, base, worktree)).tree, [old(head.value), worktree.head.value])]
      ensures Moved(r) ==>
                index == HeadTree() && workdir == Checkout(old(workdir), old(index), HeadTree())
                && (forall p :: p in old(index) || p in index ==> Same(workdir, HeadTree(), p))
                && SharedClean()
      // What it does to the files on disk, path by path, and when uncommitted ones survive.
      ensures Moved(r) ==>
                DiskAfter(directory, ignored, old(HeadTree()), old(index), old(workdir), HeadTree(), workdir)
      // Reserved files on disk are left alone exactly when head, index and checkout were settled on them.
      ensures r.Ok? && r.value.FastForward? ==>
                (SameReserved(workdir, old(workdir)) <==> ReservedSettled(old(HeadTree()), old(index), old(workdir)))
      ensures r.Ok? && r.value.ThreeWayMerged?
              && KeepsOursWhereReserved(
                   old(commits[base].tree), old(HeadTree()), old(commits[worktree.head.value].tree), HeadTree()) ==>
                (SameReserved(workdir, old(workdir)) <==> ReservedSettled(old(HeadTree()), old(index), old(workdir)))
    {
      if base !in commits {
        return Err(UnknownBase);
      }
      if worktree.head.None? {
        return Err(WorktreeUnborn);
      }
      var theirs := worktree.head.value;
      var offending := RejectReserved(commits[base].tree, commits[theirs].tree);
      if offending.Some? {
        return Err(ReservedPathCommitted(offending.value));
      }
      if head.None? {
        return Err(SharedUnborn);
      }
      if !clean {
        return Err(SharedDirty);
      }
      if !worktree.clean {
        return Err(WorktreeDirty);
      }
      if theirs == base {
        return Ok(NoChanges);
      }
      ghost var before := commits[base].tree;
      ghost var ours, changed := HeadTree(), commits[theirs].tree;
      r := Integrate(worktree, base, clean, merge, newId);
      if Moved(r) {
        AfterCheckout(directory, ours, old(index), old(workdir), ignored, HeadTree());
        ReservedAfterMerge(before, ours, changed, HeadTree(), old(index), old(workdir));
      }
    }
  }

  // ----- What a successful merge means for the checkout -----

  /** Every path that was tracked or is in the target now matches the target. */
  lemma CheckoutMatchesTarget(workdir: Files, index: Files, target: Files, p: Path)
    requires p in index || p in target
    ensures Same(Checkout(workdir, index, target), target, p)
  {
  }

  /** A clean workspace is clean again after the checkout. */
  lemma CheckoutStaysClean(
    directory: Path, head: Files, index: Files, workdir: Files, ignored: set<Path>, target: Files)
    requires Clean(directory, head, index, workdir, ignored)
    ensures Clean(directory, target, target, Checkout(workdir, index, target), ignored)
  {
  }

  /** The target has at this path what is on disk, or does not have it and no tracked file is there. */
  predicate Untouched(workdir: Files, index: Files, target: Files, p: Path) {
    if p in target then p in workdir && workdir[p] == target[p] else p in workdir ==> p !in index
  }

  /** A checkout leaves exactly these paths alone. */
  lemma PathUnchangedIff(workdir: Files, index: Files, target: Files, p: Path)
    ensures Same(Checkout(workdir, index, target), workdir, p) <==> Untouched(workdir, index, target, p)
  {
  }

  /** A file on disk that is not the one of the head. */
  predicate Uncommitted(head: Files, workdir: Files, p: Path) {
    p in workdir && !Same(head, workdir, p)
  }

  ghost predicate UncommittedKept(head: Files, before: Files, after: Files) {
    forall p :: Uncommitted(head, before, p) ==> Same(after, before, p)
  }

  /** Every uncommitted file is in the target with its content, or is neither in the target nor tracked. */
  ghost predicate UncommittedSpared(head: Files, index: Files, workdir: Files, target: Files) {
    forall p :: Uncommitted(head, workdir, p) ==> if p in target then target[p] == workdir[p] else p !in index
  }

  lemma UncommittedSurviveIff(head: Files, index: Files, workdir: Files, target: Files)
    ensures UncommittedKept(head, workdir, Checkout(workdir, index, target)) <==>
            UncommittedSpared(head, index, workdir, target)
  {
    forall p | Uncommitted(head, workdir, p)
      ensures Same(Checkout(workdir, index, target), workdir, p) <==>
              if p in target then target[p] == workdir[p] else p !in index
    {
      PathUnchangedIff(workdir, index, target, p);
    }
  }

  /** In a clean workspace only paths that are not watched, and ignored files that are not tracked, are uncommitted. */
  lemma UncommittedInCleanWorkspace(
    directory: Path, head: Files, index: Files, workdir: Files, ignored: set<Path>, p: Path)
    requires Clean(directory, head, index, workdir, ignored) && Uncommitted(head, workdir, p)
    ensures !Watched(directory, p) || (p !in index && p in ignored)
  {
  }

  /**
   What a merge in a clean workspace does to the files on disk: it leaves exactly the untouched paths
   alone; uncommitted files survive exactly when they are spared; and only paths that are not watched
   and ignored files can be uncommitted.
   */
  ghost predicate DiskAfter(
    directory: Path, ignored: set<Path>, head: Files, index: Files, before: Files, target: Files, after: Files)
  {
    (forall p :: Same(after, before, p) <==> Untouched(before, index, target, p))
    && (UncommittedKept(head, before, after) <==> UncommittedSpared(head, index, before, target))
    && (forall p :: Uncommitted(head, before, p) ==> !Watched(directory, p) || (p !in index && p in ignored))
  }

  lemma AfterCheckout(directory: Path, head: Files, index: Files, workdir: Files, ignored: set<Path>, target: Files)
    requires Clean(directory, head, index, workdir, ignored)
    ensures Clean(directory, target, target, Checkout(workdir, index, target), ignored)
    ensures DiskAfter(directory, ignored, head, index, workdir, target, Checkout(workdir, index, target))
  {
    CheckoutStaysClean(directory, head, index, workdir, ignored, target);
    UncommittedSurviveIff(head, index, workdir, target);
    forall p ensures Same(Checkout(workdir, index, target), workdir, p) <==> Untouched(workdir, index, target, p) {
      PathUnchangedIff(workdir, index, target, p);
    }
    forall p | Uncommitted(head, workdir, p) ensures !Watched(directory, p) || (p !in index && p in ignored) {
      UncommittedInCleanWorkspace(directory, head, index, workdir, ignored, p);
    }
  }

  /** Where one side agrees with the base, the merged tree has what the other side has. */
  ghost predicate Follows(base: Files, side: Files, other: Files, tree: Files, p: Path) {
    Same(base, side, p) ==> Same(tree, other, p)
  }

  /** The merged tree takes the shared head's side at reserved paths that the worktree did not change. */
  ghost predicate KeepsOursWhereReserved(base: Files, ours: Files, theirs: Files, tree: Files) {
    forall p :: Reserved(p) ==> Follows(base, theirs, ours, tree, p)
  }

  /** Fast-forwarding is the three-way merge of an unmoved shared head. */
  lemma FastForwardIsThreeWay(base: Files, theirs: Files, tree: Files)
    requires forall p :: Follows(base, base, theirs, tree, p)
    ensures tree == theirs
  {
    forall p ensures Same(tree, theirs, p) {
      assert Follows(base, base, theirs, tree, p);
    }
    assert tree.Keys == theirs.Keys by {
      forall p ensures p in tree <==> p in theirs { assert Same(tree, theirs, p); }
    }
    forall p | p in tree ensures tree[p] == theirs[p] { assert Same(tree, theirs, p); }
  }

  ghost predicate SameReserved(a: Files, b: Files) {
    forall p :: Reserved(p) ==> Same(a, b, p)
  }

  /** A worktree that passes the reject pass has the reserved files of its base. */
  lemma ForwardedTreeKeepsReserved(base: Files, theirs: Files)
    requires forall p :: !Offends(base, theirs, p)
    ensures SameReserved(theirs, base)
  {
    forall p | Reserved(p) ensures Same(theirs, base, p) {
      assert !Offends(base, theirs, p);
    }
  }

  /** The merged tree keeps the shared head's reserved files if this merge takes its side at those. */
  lemma MergedTreeKeepsReserved(base: Files, ours: Files, theirs: Files, tree: Files)
    requires forall p :: !Offends(base, theirs, p)
    requires KeepsOursWhereReserved(base, ours, theirs, tree)
    ensures SameReserved(tree, ours)
  {
    forall p | Reserved(p) ensures Same(tree, ours, p) {
      assert !Offends(base, theirs, p) && Follows(base, theirs, ours, tree, p);
    }
  }

  /** The reserved files that the head tracks are unmodified on disk, and those only staged are not there. */
  ghost predicate ReservedSettled(head: Files, index: Files, workdir: Files) {
    forall p :: Reserved(p) ==> (p in head ==> Same(workdir, head, p)) && (p in index && p !in head ==> p !in workdir)
  }

  /**
   The status check looks away from reserved paths, so the index and the checkout may differ from
   the head there. A checkout whose target has the reserved files of the head leaves those on disk
   alone exactly when they are settled.
   */
  lemma ReservedFilesUnchangedIff(head: Files, index: Files, workdir: Files, target: Files)
    requires SameReserved(target, head)
    ensures SameReserved(Checkout(workdir, index, target), workdir) <==> ReservedSettled(head, index, workdir)
  {
  }

  lemma ReservedAfterMerge(base: Files, ours: Files, theirs: Files, tree: Files, index: Files, workdir: Files)
    requires forall p :: !Offends(base, theirs, p)
    ensures (ours == base && tree == theirs) || KeepsOursWhereReserved(base, ours, theirs, tree) ==>
              (SameReserved(Checkout(workdir, index, tree), workdir) <==> ReservedSettled(ours, index, workdir))
  {
    if ours == base && tree == theirs {
      ForwardedTreeKeepsReserved(base, theirs);
      ReservedFilesUnchangedIff(ours, index, workdir, tree);
    }
    if KeepsOursWhereReserved(base, ours, theirs, tree) {
      MergedTreeKeepsReserved(base, ours, theirs, tree);
      ReservedFilesUnchangedIff(ours, index, workdir, tree);
    }
  }

  // ----- Runs that lose what the status check does not report -----

  /** A commit that adds the file `a` to an empty base; the shared head is that base. */
  function TwoCommits(): map<CommitId, Commit> {
    map[0 := Commit(map[], []), 1 := Commit(map["a" := "new"], [0])]
  }

  lemma RuntimeFileIsReserved()
    ensures Reserved(".foco/x") && !Reserved("a")
  {
    assert Trim(".foco/x") == ".foco/x" && Trim("a") == "a";
    assert DropDotSlash(".foco/x") == ".foco/x" by { assert ".foco/x"[1] == 'f'; }
    assert Replace(".foco/x", '\\', '/') == ".foco/x";
    assert Replace("a", '\\', '/') == "a";
    assert |".foco/"| > |"a"|;
  }

  lemma NothingCommittedThatOffends()
    ensures forall p :: !Offends(TwoCommits()[0].tree, TwoCommits()[1].tree, p)
  {
  }

  lemma StagedFileIsUnseen()
    ensures var staged: Files := map[".foco/x" := "state"];
            Clean("", map[], staged, staged, {})
  {
    RuntimeFileIsReserved();
  }

  /** A runtime file that was staged but never committed passes the status check, and the merge deletes it. */
  method StagedRuntimeFileIsLost(merge: MergeTool) returns (shared: SharedRepository, r: Result<Outcome, MergeError>)
    ensures fresh(shared) && r == Ok(FastForward(1)) && ".foco/x" !in shared.workdir
  {
    StagedFileIsUnseen();
    NothingCommittedThatOffends();
    var staged: Files := map[".foco/x" := "state"];
    var commits := TwoCommits();
    shared := new SharedRepository(commits, Some(0), true, staged, staged, "", {});
    r := shared.MergeCommitted(Worktree(Some(1), true), 0, true, merge, 2);
    assert ".foco/x" != "a" by { assert |".foco/x"| != |"a"|; }
  }

  lemma OutsideChangeIsUnseen()
    ensures Clean("w", map[], map[], map["a" := "mine"], {})
  {
  }

  /** A change outside the workspace directory passes the status check, and the merge overwrites it. */
  method ChangeOutsideIsOverwritten(merge: MergeTool) returns (shared: SharedRepository, r: Result<Outcome, MergeError>)
    ensures fresh(shared) && r == Ok(FastForward(1)) && shared.workdir == map["a" := "new"]
  {
    OutsideChangeIsUnseen();
    NothingCommittedThatOffends();
    shared := new SharedRepository(TwoCommits(), Some(0), true, map[], map["a" := "mine"], "w", {});
    r := shared.MergeCommitted(Worktree(Some(1), true), 0, true, merge, 2);
  }

  lemma IgnoredFileIsUnseen()
    ensures Clean("", map[], map[], map["a" := "mine"], {"a"})
  {
  }

  /** An ignored file passes the status check, and a merge whose tree has a file of that name overwrites it. */
  method IgnoredFileIsOverwritten(merge: MergeTool) returns (shared: SharedRepository, r: Result<Outcome, MergeError>)
    ensures fresh(shared) && r == Ok(FastForward(1)) && shared.workdir == map["a" := "new"]
  {
    IgnoredFileIsUnseen();
    NothingCommittedThatOffends();
    shared := new SharedRepository(TwoCommits(), Some(0), true, map[], map["a" := "mine"], "", {"a"});
    r := shared.MergeCommitted(Worktree(Some(1), true), 0, true, merge, 2);
  }
}
