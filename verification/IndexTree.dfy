/** Writing a git tree from the entries of an index through `PendingTree` (app/git_backend.rs). */
module IndexTree {
  import opened Wrappers
  import opened ByteStrings
  import opened IndexPaths

  datatype Kind = Regular | Executable | Symlink | Submodule

  /** An index entry; `kind` is absent for a mode that no tree entry can have. */
  datatype IndexEntry = IndexEntry(path: Bytes, conflicted: bool, kind: Option<Kind>, oid: nat)

  datatype PendingFile = PendingFile(name: Bytes, kind: Kind, oid: nat)

  datatype PendingTree = PendingTree(files: seq<PendingFile>, directories: map<Bytes, PendingTree>)

  const EMPTY := PendingTree([], map[])

  datatype TreeError = ConflictedEntries | NonTreeMode | EmptyPath

  /** `PendingTree::insert`. */
  function Insert(t: PendingTree, parts: seq<Bytes>, kind: Kind, oid: nat): PendingTree
    requires parts != []
    decreases |parts|
  {
    if |parts| == 1 then t.(files := t.files + [PendingFile(parts[0], kind, oid)])
    else t.(directories := t.directories[parts[0] := Insert(Child(t, parts[0]), parts[1..], kind, oid)])
  }

  function Child(t: PendingTree, name: Bytes): PendingTree {
    if name in t.directories then t.directories[name] else EMPTY
  }

  /** What an accepted index entry says: a file of some kind and content at a path. */
  datatype Leaf = Leaf(parts: seq<Bytes>, kind: Kind, oid: nat)

  function InsertAll(t: PendingTree, leaves: seq<Leaf>): PendingTree
    requires forall i :: 0 <= i < |leaves| ==> leaves[i].parts != []
  {
    if leaves == [] then t
    else
      var before := leaves[..|leaves| - 1];
      var last := leaves[|leaves| - 1];
      Insert(InsertAll(t, before), last.parts, last.kind, last.oid)
  }

  function EntryError(entry: IndexEntry): Option<TreeError> {
    if entry.conflicted then Some(ConflictedEntries)
    else if entry.kind.None? then Some(NonTreeMode)
    else if Parts(entry.path) == [] then Some(EmptyPath)
    else None
  }

  function LeafOf(entry: IndexEntry): (r: Leaf)
    requires EntryError(entry).None?
    ensures r.parts != []
  {
    Leaf(Parts(entry.path), entry.kind.value, entry.oid)
  }

  function Leaves(entries: seq<IndexEntry>): (r: seq<Leaf>)
    requires forall i :: 0 <= i < |entries| ==> EntryError(entries[i]).None?
    ensures |r| == |entries|
    ensures forall i :: 0 <= i < |r| ==> r[i] == LeafOf(entries[i]) && r[i].parts != []
  {
    seq(|entries|, i requires 0 <= i < |entries| => LeafOf(entries[i]))
  }

  lemma InsertNext(entries: seq<IndexEntry>, i: nat)
    requires i < |entries| && forall k :: 0 <= k <= i ==> EntryError(entries[k]).None?
    ensures InsertAll(EMPTY, Leaves(entries[..i + 1]))
         == Insert(
              InsertAll(EMPTY, Leaves(entries[..i])), Parts(entries[i].path), entries[i].kind.value, entries[i].oid)
  {
    var leaves := Leaves(entries[..i + 1]);
    assert leaves[..i] == Leaves(entries[..i]);
    assert leaves[i] == LeafOf(entries[i]);
  }

  /** The loop of `write_tree_from_index`: the first bad entry is reported, else every entry is inserted. */
  method CollectIndex(entries: seq<IndexEntry>) returns (r: Result<PendingTree, TreeError>)
    ensures r.Ok? <==> forall i :: 0 <= i < |entries| ==> EntryError(entries[i]).None?
    ensures r.Ok? ==> r.value == InsertAll(EMPTY, Leaves(entries))
    ensures r.Err? ==> exists i :: 0 <= i < |entries| && EntryError(entries[i]) == Some(r.error)
                                   && forall k :: 0 <= k < i ==> EntryError(entries[k]).None?
  {
    var root := EMPTY;
    for i := 0 to |entries|
      invariant forall k :: 0 <= k < i ==> EntryError(entries[k]).None?
      invariant root == InsertAll(EMPTY, Leaves(entries[..i]))
    {
      var entry := entries[i];
      var error := EntryError(entry);
      if error.Some? {
        return Err(error.value);
      }
      InsertNext(entries, i);
      root := Insert(root, Parts(entry.path), entry.kind.value, entry.oid);
    }
    assert entries[..|entries|] == entries;
    return Ok(root);
  }

  // ----- What a pending tree holds -----

  /** How often the tree holds a file of this kind and content at this path. */
  function Count(t: PendingTree, leaf: Leaf): nat
    requires leaf.parts != []
    decreases |leaf.parts|
  {
    var parts := leaf.parts;
    if |parts| == 1 then multiset(t.files)[PendingFile(parts[0], leaf.kind, leaf.oid)]
    else if parts[0] in t.directories then Count(t.directories[parts[0]], leaf.(parts := parts[1..]))
    else 0
  }

  /** Whether the path names a directory of the tree. */
  predicate IsDirectory(t: PendingTree, parts: seq<Bytes>) {
    parts == [] || (parts[0] in t.directories && IsDirectory(t.directories[parts[0]], parts[1..]))
  }

  lemma {:induction false} CountAfterInsert(t: PendingTree, parts: seq<Bytes>, kind: Kind, oid: nat, leaf: Leaf)
    requires parts != [] && leaf.parts != []
    ensures Count(Insert(t, parts, kind, oid), leaf) == Count(t, leaf) + if leaf == Leaf(parts, kind, oid) then 1 else 0
    decreases |parts|
  {
    var q := leaf.parts;
    if |parts| > 1 && |q| > 1 && parts[0] == q[0] {
      CountAfterInsert(Child(t, parts[0]), parts[1..], kind, oid, leaf.(parts := q[1..]));
      CountOfEmpty(leaf.(parts := q[1..]));
      assert parts == [parts[0]] + parts[1..] && q == [q[0]] + q[1..];
    } else if |parts| == 1 && |q| == 1 {
      assert parts == q <==> parts[0] == q[0];
    }
  }

  lemma {:induction false} CountOfEmpty(leaf: Leaf)
    requires leaf.parts != []
    ensures Count(EMPTY, leaf) == 0
  {
  }

  lemma {:induction false} DirectoryAfterInsert(t: PendingTree, parts: seq<Bytes>, kind: Kind, oid: nat, q: seq<Bytes>)
    requires parts != []
    ensures IsDirectory(Insert(t, parts, kind, oid), q) <==> IsDirectory(t, q) || ProperPrefix(q, parts)
    decreases |parts|
  {
    if |parts| > 1 && q != [] && parts[0] == q[0] {
      DirectoryAfterInsert(Child(t, parts[0]), parts[1..], kind, oid, q[1..]);
      assert ProperPrefix(q, parts) <==> ProperPrefix(q[1..], parts[1..]) by {
        assert q == [q[0]] + q[1..] && parts == [parts[0]] + parts[1..];
        if ProperPrefix(q[1..], parts[1..]) {
          assert parts[..|q|] == [parts[0]] + parts[1..][..|q| - 1];
        }
        if ProperPrefix(q, parts) {
          assert parts[1..][..|q| - 1] == parts[..|q|][1..];
        }
      }
    } else if q != [] && |parts| > 1 {
      assert parts[..1][0] == parts[0];
    }
  }

  /** Nothing is lost, added or moved: the tree holds each file exactly as often as the index does. */
  lemma {:induction false} TreeHoldsTheIndex(leaves: seq<Leaf>, leaf: Leaf)
    requires forall i :: 0 <= i < |leaves| ==> leaves[i].parts != []
    requires leaf.parts != []
    ensures Count(InsertAll(EMPTY, leaves), leaf) == multiset(leaves)[leaf]
    decreases |leaves|
  {
    if leaves == [] {
      CountOfEmpty(leaf);
    } else {
      var before, last := leaves[..|leaves| - 1], leaves[|leaves| - 1];
      TreeHoldsTheIndex(before, leaf);
      CountAfterInsert(InsertAll(EMPTY, before), last.parts, last.kind, last.oid, leaf);
      assert leaves == before + [last];
      assert multiset(leaves) == multiset(before) + multiset{last};
    }
  }

  /** The files of this name, in order. */
  function FilesNamed(files: seq<PendingFile>, name: Bytes): seq<PendingFile> {
    if files == [] then []
    else
      var last := files[|files| - 1];
      FilesNamed(files[..|files| - 1], name) + if last.name == name then [last] else []
  }

  /** The files that the tree holds at this path, in order. */
  function FilesAt(t: PendingTree, parts: seq<Bytes>): seq<PendingFile>
    requires parts != []
    decreases |parts|
  {
    if |parts| == 1 then FilesNamed(t.files, parts[0])
    else if parts[0] in t.directories then FilesAt(t.directories[parts[0]], parts[1..])
    else []
  }

  /** The files that the leaves put at this path, in order. */
  function LeavesAt(leaves: seq<Leaf>, parts: seq<Bytes>): seq<PendingFile>
    requires parts != []
  {
    if leaves == [] then []
    else LeavesAt(leaves[..|leaves| - 1], parts) + FileIf(leaves[|leaves| - 1], parts)
  }

  function FileIf(leaf: Leaf, parts: seq<Bytes>): seq<PendingFile>
    requires parts != []
  {
    if leaf.parts == parts then [PendingFile(parts[|parts| - 1], leaf.kind, leaf.oid)] else []
  }

  lemma {:induction false} NoFilesInEmpty(parts: seq<Bytes>)
    requires parts != []
    ensures FilesAt(EMPTY, parts) == []
  {
  }

  lemma {:induction false} FilesAtAfterInsert(t: PendingTree, leaf: Leaf, q: seq<Bytes>)
    requires leaf.parts != [] && q != []
    ensures FilesAt(Insert(t, leaf.parts, leaf.kind, leaf.oid), q) == FilesAt(t, q) + FileIf(leaf, q)
    decreases |leaf.parts|
  {
    var parts := leaf.parts;
    var after := Insert(t, parts, leaf.kind, leaf.oid);
    if |parts| > 1 && |q| > 1 && parts[0] == q[0] {
      FilesAtAfterInsert(Child(t, parts[0]), leaf.(parts := parts[1..]), q[1..]);
      NoFilesInEmpty(q[1..]);
      assert parts == [parts[0]] + parts[1..] && q == [q[0]] + q[1..];
    } else if |parts| == 1 && |q| == 1 {
      assert after.files[..|t.files|] == t.files;
      assert parts == q <==> parts[0] == q[0];
    }
  }

  /** The tree holds the files of each path in the order of the index. */
  lemma {:induction false} TreeKeepsTheOrder(leaves: seq<Leaf>, q: seq<Bytes>)
    requires q != [] && forall i :: 0 <= i < |leaves| ==> leaves[i].parts != []
    ensures FilesAt(InsertAll(EMPTY, leaves), q) == LeavesAt(leaves, q)
    decreases |leaves|
  {
    if leaves == [] {
      NoFilesInEmpty(q);
    } else {
      TreeKeepsTheOrder(leaves[..|leaves| - 1], q);
      FilesAtAfterInsert(InsertAll(EMPTY, leaves[..|leaves| - 1]), leaves[|leaves| - 1], q);
    }
  }

  lemma {:induction false} DirectoriesOfTheIndex(leaves: seq<Leaf>, q: seq<Bytes>)
    requires forall i :: 0 <= i < |leaves| ==> leaves[i].parts != []
    requires q != []
    ensures IsDirectory(InsertAll(EMPTY, leaves), q) <==>
            exists i :: 0 <= i < |leaves| && ProperPrefix(q, leaves[i].parts)
    decreases |leaves|
  {
    if leaves != [] {
      var before, last := leaves[..|leaves| - 1], leaves[|leaves| - 1];
      DirectoriesOfTheIndex(before, q);
      DirectoryAfterInsert(InsertAll(EMPTY, before), last.parts, last.kind, last.oid, q);
      if i :| 0 <= i < |before| && ProperPrefix(q, before[i].parts) {
        assert leaves[i] == before[i];
      }
    }
  }

  // ----- When the tree is a legal git tree -----

  /** Every name occurs once in its directory, as a file or as a directory. */
  ghost predicate WellFormed(t: PendingTree) {
    (forall i, j :: 0 <= i < j < |t.files| ==> t.files[i].name != t.files[j].name)
    && (forall i :: 0 <= i < |t.files| ==> t.files[i].name !in t.directories)
    && (forall d :: d in t.directories ==> WellFormed(t.directories[d]))
  }

  predicate HasFile(t: PendingTree, parts: seq<Bytes>)
    requires parts != []
    decreases |parts|
  {
    if |parts| == 1 then exists i :: 0 <= i < |t.files| && t.files[i].name == parts[0]
    else parts[0] in t.directories && HasFile(t.directories[parts[0]], parts[1..])
  }

  lemma {:induction false} FileAfterInsert(t: PendingTree, parts: seq<Bytes>, kind: Kind, oid: nat, q: seq<Bytes>)
    requires parts != [] && q != []
    ensures HasFile(Insert(t, parts, kind, oid), q) <==> HasFile(t, q) || q == parts
    decreases |parts|
  {
    if |parts| > 1 && |q| > 1 && parts[0] == q[0] {
      FileAfterInsert(Child(t, parts[0]), parts[1..], kind, oid, q[1..]);
      assert parts == [parts[0]] + parts[1..] && q == [q[0]] + q[1..];
    } else if |parts| == 1 && |q| == 1 {
      var files := Insert(t, parts, kind, oid).files;
      assert files[|t.files|].name == parts[0];
      if i :| 0 <= i < |t.files| && t.files[i].name == q[0] {
        assert files[i].name == q[0];
      }
    }
  }

  /** The path is free and no file stands where it needs a directory. */
  predicate Free(t: PendingTree, parts: seq<Bytes>)
    requires parts != []
  {
    !HasFile(t, parts) && !IsDirectory(t, parts) && forall k :: 1 <= k < |parts| ==> !HasFile(t, parts[..k])
  }

  lemma FreeInChild(t: PendingTree, parts: seq<Bytes>)
    requires |parts| > 1
    ensures Free(t, parts) <==> !HasFile(t, parts[..1]) && Free(Child(t, parts[0]), parts[1..])
  {
    var child := Child(t, parts[0]);
    forall k | 1 <= k < |parts| - 1 ensures HasFile(t, parts[..k + 1]) <==> HasFile(child, parts[1..][..k]) {
      assert parts[..k + 1][1..] == parts[1..][..k];
      if parts[0] !in t.directories {
        NoFileInEmpty(parts[1..][..k]);
      }
    }
    if parts[0] !in t.directories {
      NoFileInEmpty(parts[1..]);
    }
    if Free(t, parts) {
      assert !HasFile(t, parts[..1]);
      forall k | 1 <= k < |parts| - 1 ensures !HasFile(child, parts[1..][..k]) {
        assert !HasFile(t, parts[..k + 1]);
      }
    }
    if !HasFile(t, parts[..1]) && Free(child, parts[1..]) {
      forall k | 1 <= k < |parts| ensures !HasFile(t, parts[..k]) {
        if k > 1 {
          assert !HasFile(child, parts[1..][..k - 1]);
        }
      }
    }
  }

  lemma NoFileInEmpty(parts: seq<Bytes>)
    requires parts != []
    ensures !HasFile(EMPTY, parts)
  {
  }

  lemma {:induction false} WellFormedAfterInsert(t: PendingTree, parts: seq<Bytes>, kind: Kind, oid: nat)
    requires parts != []
    ensures WellFormed(Insert(t, parts, kind, oid)) <==> WellFormed(t) && Free(t, parts)
    decreases |parts|
  {
    var after := Insert(t, parts, kind, oid);
    if |parts| == 1 {
      FreeName(t, parts);
      WellFormedFile(t, PendingFile(parts[0], kind, oid));
    } else {
      var child := Child(t, parts[0]);
      WellFormedAfterInsert(child, parts[1..], kind, oid);
      FreeInChild(t, parts);
      assert parts[..1][0] == parts[0];
      assert WellFormed(EMPTY);
      forall d | d in after.directories && d != parts[0] ensures after.directories[d] == t.directories[d] {
      }
      if WellFormed(after) {
        assert WellFormed(after.directories[parts[0]]);
        forall d | d in t.directories ensures WellFormed(t.directories[d]) {
          assert WellFormed(after.directories[d]);
        }
      }
    }
  }

  predicate NameIsFree(t: PendingTree, name: Bytes) {
    name !in t.directories && forall i :: 0 <= i < |t.files| ==> t.files[i].name != name
  }

  lemma FreeName(t: PendingTree, parts: seq<Bytes>)
    requires |parts| == 1
    ensures Free(t, parts) <==> NameIsFree(t, parts[0])
  {
    assert IsDirectory(t, parts) <==> parts[0] in t.directories;
  }

  lemma WellFormedFile(t: PendingTree, file: PendingFile)
    ensures WellFormed(t.(files := t.files + [file])) <==> WellFormed(t) && NameIsFree(t, file.name)
  {
    var after := t.(files := t.files + [file]);
    var n := |t.files|;
    assert after.files[n] == file && forall i :: 0 <= i < n ==> after.files[i] == t.files[i];
    if WellFormed(after) {
      forall i | 0 <= i < n ensures t.files[i].name != file.name {
        assert after.files[i].name != after.files[n].name;
      }
    }
  }

  predicate AllApart(leaves: seq<Leaf>, parts: seq<Bytes>) {
    forall i :: 0 <= i < |leaves| ==> Apart(leaves[i].parts, parts)
  }

  predicate PrefixFree(leaves: seq<Leaf>) {
    forall i, j :: 0 <= i < j < |leaves| ==> Apart(leaves[i].parts, leaves[j].parts)
  }

  lemma {:induction false} FilesOfTheIndex(leaves: seq<Leaf>, q: seq<Bytes>)
    requires forall i :: 0 <= i < |leaves| ==> leaves[i].parts != []
    requires q != []
    ensures HasFile(InsertAll(EMPTY, leaves), q) <==> exists i :: 0 <= i < |leaves| && leaves[i].parts == q
    decreases |leaves|
  {
    if leaves == [] {
      NoFileInEmpty(q);
    } else {
      var before, last := leaves[..|leaves| - 1], leaves[|leaves| - 1];
      FilesOfTheIndex(before, q);
      FileAfterInsert(InsertAll(EMPTY, before), last.parts, last.kind, last.oid, q);
      if i :| 0 <= i < |before| && before[i].parts == q {
        assert leaves[i] == before[i];
      }
    }
  }

  lemma {:induction false} FreeOfTheIndex(leaves: seq<Leaf>, parts: seq<Bytes>)
    requires forall i :: 0 <= i < |leaves| ==> leaves[i].parts != []
    requires parts != []
    ensures Free(InsertAll(EMPTY, leaves), parts) <==> AllApart(leaves, parts)
  {
    var t := InsertAll(EMPTY, leaves);
    FilesOfTheIndex(leaves, parts);
    DirectoriesOfTheIndex(leaves, parts);
    forall k | 1 <= k < |parts|
      ensures HasFile(t, parts[..k]) <==> exists i :: 0 <= i < |leaves| && leaves[i].parts == parts[..k]
    {
      FilesOfTheIndex(leaves, parts[..k]);
    }
    if Free(t, parts) {
      forall i | 0 <= i < |leaves| ensures Apart(leaves[i].parts, parts) {
        var p := leaves[i].parts;
        assert |p| < |parts| ==> !HasFile(t, parts[..|p|]);
      }
    } else if k :| 1 <= k < |parts| && HasFile(t, parts[..k]) {
      var i :| 0 <= i < |leaves| && leaves[i].parts == parts[..k];
      assert ProperPrefix(leaves[i].parts, parts);
    }
  }

  lemma {:induction false} PrefixFreeNext(leaves: seq<Leaf>, n: nat)
    requires |leaves| == n + 1
    ensures PrefixFree(leaves) <==>
            PrefixFree(leaves[..n]) && AllApart(leaves[..n], leaves[n].parts)
  {
  }

  lemma WellFormedNext(t: PendingTree, before: seq<Leaf>, last: Leaf)
    requires forall i :: 0 <= i < |before| ==> before[i].parts != []
    requires last.parts != [] && t == InsertAll(EMPTY, before)
    ensures WellFormed(Insert(t, last.parts, last.kind, last.oid)) <==> WellFormed(t) && AllApart(before, last.parts)
  {
    WellFormedAfterInsert(t, last.parts, last.kind, last.oid);
    FreeOfTheIndex(before, last.parts);
  }

  lemma InsertAllNext(leaves: seq<Leaf>, n: nat)
    requires |leaves| == n + 1 && forall i :: 0 <= i < |leaves| ==> leaves[i].parts != []
    ensures InsertAll(EMPTY, leaves)
            == Insert(InsertAll(EMPTY, leaves[..n]), leaves[n].parts, leaves[n].kind, leaves[n].oid)
  {
  }

  /** The tree of these leaves has unique names in every directory. */
  ghost predicate IsLegal(leaves: seq<Leaf>)
    requires forall i :: 0 <= i < |leaves| ==> leaves[i].parts != []
  {
    WellFormed(InsertAll(EMPTY, leaves))
  }

  lemma LegalNext(leaves: seq<Leaf>, n: nat)
    requires |leaves| == n + 1 && forall i :: 0 <= i < |leaves| ==> leaves[i].parts != []
    ensures IsLegal(leaves) <==> IsLegal(leaves[..n]) && AllApart(leaves[..n], leaves[n].parts)
  {
    InsertAllNext(leaves, n);
    WellFormedNext(InsertAll(EMPTY, leaves[..n]), leaves[..n], leaves[n]);
  }

  /** Names are unique in every directory exactly when no two leaves are at equal or nested places. */
  lemma {:induction false} LegalIffPrefixFree(leaves: seq<Leaf>)
    requires forall i :: 0 <= i < |leaves| ==> leaves[i].parts != []
    ensures IsLegal(leaves) <==> PrefixFree(leaves)
    decreases |leaves|
  {
    if leaves != [] {
      var n := |leaves| - 1;
      LegalIffPrefixFree(leaves[..n]);
      LegalNext(leaves, n);
      PrefixFreeNext(leaves, n);
    }
  }

  // ----- In terms of the paths of the index -----

  /** Why an entry is refused: it is conflicted, has no tree mode, or its path has nothing but slashes. */
  lemma EntryErrorMeaning(entry: IndexEntry)
    ensures EntryError(entry) == Some(ConflictedEntries) <==> entry.conflicted
    ensures EntryError(entry) == Some(NonTreeMode) <==> !entry.conflicted && entry.kind.None?
    ensures EntryError(entry) == Some(EmptyPath) <==>
            !entry.conflicted && entry.kind.Some? && forall i :: 0 <= i < |entry.path| ==> entry.path[i] == 0x2F
  {
    NoPartsIff(entry.path, []);
  }

  predicate Accepted(entries: seq<IndexEntry>) {
    forall i :: 0 <= i < |entries| ==> EntryError(entries[i]).None?
  }

  /** No two entries have equal or nested paths, empty parts aside. */
  predicate PathsPrefixFree(entries: seq<IndexEntry>) {
    forall i, j :: 0 <= i < j < |entries| ==> PathsApart(NormalPath(entries[i].path), NormalPath(entries[j].path))
  }

  lemma PrefixFreeIff(entries: seq<IndexEntry>)
    requires Accepted(entries)
    ensures PrefixFree(Leaves(entries)) <==> PathsPrefixFree(entries)
  {
    var leaves := Leaves(entries);
    forall i, j | 0 <= i < j < |entries|
      ensures Apart(leaves[i].parts, leaves[j].parts) <==>
              PathsApart(NormalPath(entries[i].path), NormalPath(entries[j].path))
    {
      ApartIff(entries[i].path, entries[j].path);
    }
  }

  /** The tree of an index is a legal git tree exactly when no two of its paths are equal or nested. */
  lemma LegalTreeIffPrefixFree(entries: seq<IndexEntry>)
    requires Accepted(entries)
    ensures WellFormed(InsertAll(EMPTY, Leaves(entries))) <==> PathsPrefixFree(entries)
  {
    LegalIffPrefixFree(Leaves(entries));
    PrefixFreeIff(entries);
  }

  /** An index with the files `a` and `a/b` is accepted, and its tree has `a` twice in the root. */
  lemma FileAndDirectoryOfOneName()
    ensures var a: Byte := 97;
            var b: Byte := 98;
            var entries := [
              IndexEntry([a], false, Some(Regular), 1), IndexEntry([a, SLASH, b], false, Some(Regular), 2)];
            Accepted(entries) && !WellFormed(InsertAll(EMPTY, Leaves(entries)))
  {
    var a: Byte, b: Byte := 97, 98;
    var entries := [IndexEntry([a], false, Some(Regular), 1), IndexEntry([a, SLASH, b], false, Some(Regular), 2)];
    NormalPathIff([a]);
    NormalPathIff([a, SLASH, b]);
    assert CleanPath([a]) && CleanPath([a, SLASH, b]);
    assert Inside([a, SLASH, b], [a]) by { assert [a, SLASH, b][..1] == [a]; }
    assert !PathsApart(NormalPath(entries[0].path), NormalPath(entries[1].path));
    LegalTreeIffPrefixFree(entries);
  }
}
