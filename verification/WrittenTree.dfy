/** The git tree objects that `PendingTree::write` produces (app/git_backend.rs). */
module WrittenTree {
  import opened Wrappers
  import opened ByteStrings
  import opened Bags
  import opened Ordering
  import opened IndexPaths
  import opened IndexTree

  /** A tree object; a subtree is addressed by its content, so it stands for its object id. */
  datatype GitTree = GitTree(entries: seq<GitEntry>)

  datatype GitEntry =
    | Blob(name: Bytes, kind: Kind, oid: nat)
    | Subtree(name: Bytes, tree: GitTree)

  // ----- The order of entries -----

  /** Git orders a directory as if its name ended in a slash. */
  function SortKey(e: GitEntry): Bytes {
    if e.Subtree? then e.name + [SLASH] else e.name
  }

  predicate ByteLe(a: Byte, b: Byte) {
    a <= b
  }

  predicate NameLe(a: Bytes, b: Bytes) {
    Lex(ByteLe, a, b)
  }

  predicate EntryLe(a: GitEntry, b: GitEntry) {
    NameLe(SortKey(a), SortKey(b))
  }

  lemma NamesAreOrdered()
    ensures TotalOrder(NameLe)
  {
    assert TotalOrder(ByteLe);
    forall a, b
      ensures NameLe(a, b) || NameLe(b, a)
      ensures NameLe(a, b) && NameLe(b, a) ==> a == b
    {
      LexIsTotal(ByteLe, a, b);
    }
    forall a, b, c | NameLe(a, b) && NameLe(b, c) ensures NameLe(a, c) {
      LexIsTransitive(ByteLe, a, b, c);
    }
  }

  lemma EntriesAreOrdered()
    ensures Preorder(EntryLe)
  {
    NamesAreOrdered();
  }

  // ----- Writing -----

  function BlobOf(f: PendingFile): GitEntry {
    Blob(f.name, f.kind, f.oid)
  }

  /** Which trees may stand for which directory. */
  type Subtrees = (Bytes, GitTree) -> bool

  /** One subtree for each of the names, in the order of names, which is that of a `BTreeMap`. */
  ghost predicate DirectoryEntries(names: set<Bytes>, dirs: seq<GitEntry>, written: Subtrees) {
    (forall i :: 0 <= i < |dirs| ==> dirs[i].Subtree? && dirs[i].name in names && written(dirs[i].name, dirs[i].tree))
    && (forall i, j :: 0 <= i < j < |dirs| ==> NameLe(dirs[i].name, dirs[j].name) && dirs[i].name != dirs[j].name)
    && (forall d :: d in names ==> exists i :: 0 <= i < |dirs| && dirs[i].name == d)
  }

  ghost function WrittenBelow(t: PendingTree): Subtrees
    decreases t, 0
  {
    (name: Bytes, g: GitTree) => name in t.directories && Written(t.directories[name], g)
  }

  /**
   `g` is what writing `t` produces: its directories and then its files, sorted without reordering
   what compares equal.
   */
  ghost predicate Written(t: PendingTree, g: GitTree)
    decreases t, 1
  {
    exists dirs ::
      DirectoryEntries(t.directories.Keys, dirs, WrittenBelow(t))
      && g.entries == SortBy(EntryLe, dirs + MapAll(BlobOf, t.files))
  }

  /** `PendingTree::write`. */
  method WriteTree(t: PendingTree) returns (g: GitTree)
    ensures Written(t, g)
    decreases t
  {
    var dirs := WriteDirectories(t);
    var entries := dirs;
    for i := 0 to |t.files|
      invariant entries == dirs + MapAll(BlobOf, t.files)[..i]
    {
      entries := entries + [BlobOf(t.files[i])];
    }
    assert MapAll(BlobOf, t.files)[..|t.files|] == MapAll(BlobOf, t.files);
    return GitTree(SortBy(EntryLe, entries));
  }

  lemma SmallestName(names: set<Bytes>) returns (m: Bytes)
    requires names != {}
    ensures m in names && forall n :: n in names ==> NameLe(m, n)
  {
    NamesAreOrdered();
    m := Smallest(NameLe, names);
  }

  /** The directories come before all of the names. */
  predicate Precede(dirs: seq<GitEntry>, names: set<Bytes>) {
    forall i, n :: 0 <= i < |dirs| && n in names ==> NameLe(dirs[i].name, n)
  }

  lemma PrecedeNext(dirs: seq<GitEntry>, names: set<Bytes>, name: Bytes, sub: GitTree)
    requires Precede(dirs, names) && forall n :: n in names ==> NameLe(name, n)
    ensures Precede(dirs + [Subtree(name, sub)], names - {name})
  {
  }

  lemma AddDirectory(names: set<Bytes>, dirs: seq<GitEntry>, written: Subtrees, name: Bytes, sub: GitTree)
    requires DirectoryEntries(names, dirs, written) && name !in names && written(name, sub)
    requires forall i :: 0 <= i < |dirs| ==> NameLe(dirs[i].name, name)
    ensures DirectoryEntries(names + {name}, dirs + [Subtree(name, sub)], written)
  {
    var more := dirs + [Subtree(name, sub)];
    forall d | d in names + {name} ensures exists i :: 0 <= i < |more| && more[i].name == d {
      if d == name {
        assert more[|dirs|].name == d;
      } else {
        var i :| 0 <= i < |dirs| && dirs[i].name == d;
        assert more[i].name == d;
      }
    }
  }

  method WriteDirectories(t: PendingTree) returns (dirs: seq<GitEntry>)
    ensures DirectoryEntries(t.directories.Keys, dirs, WrittenBelow(t))
    decreases t, 0
  {
    dirs := [];
    var names := t.directories.Keys;
    while names != {}
      invariant names <= t.directories.Keys
      invariant DirectoryEntries(t.directories.Keys - names, dirs, WrittenBelow(t))
      invariant Precede(dirs, names)
    {
      ghost var smallest := SmallestName(names);
      var name :| name in names && forall n :: n in names ==> NameLe(name, n);
      var sub := WriteTree(t.directories[name]);
      AddDirectory(t.directories.Keys - names, dirs, WrittenBelow(t), name, sub);
      PrecedeNext(dirs, names, name, sub);
      dirs := dirs + [Subtree(name, sub)];
      assert t.directories.Keys - names + {name} == t.directories.Keys - (names - {name});
      names := names - {name};
    }
    assert t.directories.Keys - {} == t.directories.Keys;
  }

  // ----- What a written tree holds -----

  ghost predicate BlobsOf(files: seq<PendingFile>, bag: multiset<GitEntry>) {
    forall f: PendingFile :: bag[BlobOf(f)] == multiset(files)[f]
  }

  /** One subtree for each of the names. */
  ghost predicate SubtreesOf(names: set<Bytes>, written: Subtrees, bag: multiset<GitEntry>) {
    (forall e :: e in bag && e.Subtree? ==> bag[e] == 1 && e.name in names && written(e.name, e.tree))
    && (forall d, e :: e in bag && d in bag && e.Subtree? && d.Subtree? && d.name == e.name ==> d == e)
    && (forall d :: d in names ==> exists e :: e in bag && e.Subtree? && e.name == d)
  }

  /** The files of the tree and one written subtree for each of its directories. */
  ghost predicate BagOf(t: PendingTree, bag: multiset<GitEntry>) {
    BlobsOf(t.files, bag) && SubtreesOf(t.directories.Keys, WrittenBelow(t), bag)
  }

  lemma {:induction false} CountOfBlobs(files: seq<PendingFile>, f: PendingFile)
    ensures multiset(MapAll(BlobOf, files))[BlobOf(f)] == multiset(files)[f]
    decreases |files|
  {
    if files != [] {
      CountOfBlobs(files[1..], f);
      BagOfTail(files);
      BagOfTail(MapAll(BlobOf, files));
      assert MapAll(BlobOf, files)[1..] == MapAll(BlobOf, files[1..]);
    }
  }

  lemma DirectoriesOccurOnce(names: set<Bytes>, dirs: seq<GitEntry>, written: Subtrees, e: GitEntry)
    requires DirectoryEntries(names, dirs, written) && e in dirs
    ensures multiset(dirs)[e] == 1
  {
    if multiset(dirs)[e] >= 2 {
      var i, j := TwoOccurrences(dirs, e);
      assert false;
    }
  }

  lemma ListHasBlobs(dirs: seq<GitEntry>, files: seq<PendingFile>)
    requires forall i :: 0 <= i < |dirs| ==> dirs[i].Subtree?
    ensures BlobsOf(files, multiset(dirs + MapAll(BlobOf, files)))
  {
    var blobs := MapAll(BlobOf, files);
    forall f: PendingFile ensures multiset(dirs + blobs)[BlobOf(f)] == multiset(files)[f] {
      CountOfBlobs(files, f);
      assert BlobOf(f) !in dirs;
      assert multiset(dirs + blobs) == multiset(dirs) + multiset(blobs);
    }
  }

  lemma SubtreeInList(names: set<Bytes>, dirs: seq<GitEntry>, written: Subtrees, blobs: seq<GitEntry>, e: GitEntry)
    requires DirectoryEntries(names, dirs, written) && forall i :: 0 <= i < |blobs| ==> blobs[i].Blob?
    requires e in multiset(dirs + blobs) && e.Subtree?
    ensures e in dirs && multiset(dirs + blobs)[e] == 1
  {
    assert multiset(dirs + blobs) == multiset(dirs) + multiset(blobs);
    assert e !in blobs;
    DirectoriesOccurOnce(names, dirs, written, e);
  }

  lemma {:induction false} ListHasSubtrees(
    names: set<Bytes>, dirs: seq<GitEntry>, written: Subtrees, blobs: seq<GitEntry>)
    requires DirectoryEntries(names, dirs, written) && forall i :: 0 <= i < |blobs| ==> blobs[i].Blob?
    ensures SubtreesOf(names, written, multiset(dirs + blobs))
  {
    var bag := multiset(dirs + blobs);
    forall e | e in bag && e.Subtree? ensures e in dirs && bag[e] == 1 {
      SubtreeInList(names, dirs, written, blobs, e);
    }
    forall d, e | e in bag && d in bag && e.Subtree? && d.Subtree? && d.name == e.name ensures d == e {
      var i :| 0 <= i < |dirs| && dirs[i] == d;
      var j :| 0 <= j < |dirs| && dirs[j] == e;
    }
    forall d | d in names ensures exists e :: e in bag && e.Subtree? && e.name == d {
      var i :| 0 <= i < |dirs| && dirs[i].name == d;
      assert (dirs + blobs)[i] == dirs[i];
    }
  }

  lemma WrittenBag(t: PendingTree, g: GitTree)
    requires Written(t, g)
    ensures Sorted(EntryLe, g.entries) && BagOf(t, multiset(g.entries))
  {
    var blobs := MapAll(BlobOf, t.files);
    var dirs :| DirectoryEntries(t.directories.Keys, dirs, WrittenBelow(t))
      && g.entries == SortBy(EntryLe, dirs + blobs);
    EntriesAreOrdered();
    SortIsSorted(EntryLe, dirs + blobs);
    ListHasBlobs(dirs, t.files);
    ListHasSubtrees(t.directories.Keys, dirs, WrittenBelow(t), blobs);
  }

  lemma SubtreeIsWritten(t: PendingTree, g: GitTree, e: GitEntry)
    requires Written(t, g) && e in multiset(g.entries) && e.Subtree?
    ensures e.name in t.directories && Written(t.directories[e.name], e.tree)
  {
    WrittenBag(t, g);
    assert WrittenBelow(t)(e.name, e.tree);
  }

  // ----- The order of a written tree -----

  /** `a` is a prefix of `b`, or smaller at the first byte where they differ. */
  predicate Ascends(a: Bytes, b: Bytes) {
    (|a| <= |b| && a == b[..|a|])
    || exists k :: 0 <= k < |a| && k < |b| && a[..k] == b[..k] && a[k] as int < b[k] as int
  }

  /** The order that git demands of a tree and of all its subtrees: by name, directories as if followed by a slash. */
  ghost predicate Canonical(g: GitTree) {
    (forall i, j :: 0 <= i < j < |g.entries| ==> Ascends(CanonicalKey(g.entries[i]), CanonicalKey(g.entries[j])))
    && (forall i :: 0 <= i < |g.entries| && g.entries[i].Subtree? ==> Canonical(g.entries[i].tree))
  }

  function CanonicalKey(e: GitEntry): Bytes {
    e.name + if e.Subtree? then [0x2F] else []
  }

  lemma {:induction false} NameLeAscends(a: Bytes, b: Bytes)
    requires NameLe(a, b)
    ensures Ascends(a, b)
  {
    if a != [] && a[0] == b[0] {
      NameLeAscends(a[1..], b[1..]);
      if |a| <= |b| && a[1..] == b[1..][..|a| - 1] {
        assert a == b[..|a|];
      } else {
        var k :| 0 <= k < |a| - 1 && k < |b| - 1 && a[1..][..k] == b[1..][..k] && a[1..][k] as int < b[1..][k] as int;
        assert a[..k + 1] == [a[0]] + a[1..][..k] && b[..k + 1] == [b[0]] + b[1..][..k];
        assert a[k + 1] as int < b[k + 1] as int;
      }
    } else if a != [] {
      assert a[..0] == b[..0];
    }
  }

  /** A written tree and all its subtrees are in the order that git demands. */
  lemma {:induction false} WrittenIsCanonical(t: PendingTree, g: GitTree)
    requires Written(t, g)
    ensures Canonical(g)
    decreases t
  {
    WrittenBag(t, g);
    forall i, j | 0 <= i < j < |g.entries| ensures Ascends(CanonicalKey(g.entries[i]), CanonicalKey(g.entries[j])) {
      assert EntryLe(g.entries[i], g.entries[j]);
      NameLeAscends(SortKey(g.entries[i]), SortKey(g.entries[j]));
      assert SortKey(g.entries[i]) == CanonicalKey(g.entries[i]) && SortKey(g.entries[j]) == CanonicalKey(g.entries[j]);
    }
    forall i | 0 <= i < |g.entries| && g.entries[i].Subtree? ensures Canonical(g.entries[i].tree) {
      assert g.entries[i] in multiset(g.entries);
      SubtreeIsWritten(t, g, g.entries[i]);
      WrittenIsCanonical(t.directories[g.entries[i].name], g.entries[i].tree);
    }
  }

  lemma NoPeer(e: GitEntry, x: GitEntry)
    requires e.Subtree? && SLASH !in SortKey(x)
    ensures IfPeer(EntryLe, e, x) == []
  {
    NamesAreOrdered();
    assert SortKey(e)[|e.name|] == SLASH;
  }

  lemma {:induction false} DirectoriesHaveNoPeer(dirs: seq<GitEntry>, x: GitEntry)
    requires SLASH !in SortKey(x) && forall i :: 0 <= i < |dirs| ==> dirs[i].Subtree?
    ensures Peers(EntryLe, dirs, x) == []
    decreases |dirs|
  {
    if dirs != [] {
      DirectoriesHaveNoPeer(dirs[..|dirs| - 1], x);
      NoPeer(dirs[|dirs| - 1], x);
    }
  }

  /** The files of one directory that compare equal keep their order. */
  lemma PeersKeepTheirOrder(t: PendingTree, g: GitTree, f: PendingFile)
    requires Written(t, g) && SLASH !in f.name
    ensures Peers(EntryLe, g.entries, BlobOf(f)) == Peers(EntryLe, MapAll(BlobOf, t.files), BlobOf(f))
  {
    var blobs := MapAll(BlobOf, t.files);
    var dirs :| DirectoryEntries(t.directories.Keys, dirs, WrittenBelow(t))
      && g.entries == SortBy(EntryLe, dirs + blobs);
    EntriesAreOrdered();
    SortIsStable(EntryLe, dirs + blobs, BlobOf(f));
    PeersOfConcat(EntryLe, dirs, blobs, BlobOf(f));
    DirectoriesHaveNoPeer(dirs, BlobOf(f));
  }

  /** The blobs of this name, in order. */
  function BlobsNamed(entries: seq<GitEntry>, name: Bytes): seq<GitEntry> {
    if entries == [] then []
    else
      var last := entries[|entries| - 1];
      BlobsNamed(entries[..|entries| - 1], name) + if last.Blob? && last.name == name then [last] else []
  }

  lemma IfPeerIsNamed(e: GitEntry, f: PendingFile)
    requires SLASH !in f.name
    ensures IfPeer(EntryLe, e, BlobOf(f)) == if e.Blob? && e.name == f.name then [e] else []
  {
    NamesAreOrdered();
    if e.Subtree? {
      NoPeer(e, BlobOf(f));
    } else {
      assert NameLe(e.name, f.name) && NameLe(f.name, e.name) ==> e.name == f.name;
    }
  }

  lemma {:induction false} PeersAreNamed(entries: seq<GitEntry>, f: PendingFile)
    requires SLASH !in f.name
    ensures Peers(EntryLe, entries, BlobOf(f)) == BlobsNamed(entries, f.name)
    decreases |entries|
  {
    if entries != [] {
      PeersAreNamed(entries[..|entries| - 1], f);
      IfPeerIsNamed(entries[|entries| - 1], f);
    }
  }

  lemma {:induction false} BlobsOfNamedFiles(files: seq<PendingFile>, name: Bytes)
    ensures BlobsNamed(MapAll(BlobOf, files), name) == MapAll(BlobOf, FilesNamed(files, name))
    decreases |files|
  {
    if files != [] {
      var n := |files| - 1;
      BlobsOfNamedFiles(files[..n], name);
      assert MapAll(BlobOf, files)[..n] == MapAll(BlobOf, files[..n]);
    }
  }

  lemma DirectoryKeepsTheOrder(t: PendingTree, g: GitTree, name: Bytes)
    requires Written(t, g) && SLASH !in name
    ensures BlobsNamed(g.entries, name) == MapAll(BlobOf, FilesNamed(t.files, name))
  {
    var f := PendingFile(name, Regular, 0);
    PeersKeepTheirOrder(t, g, f);
    PeersAreNamed(g.entries, f);
    PeersAreNamed(MapAll(BlobOf, t.files), f);
    BlobsOfNamedFiles(t.files, name);
  }

  /** The tree has these blobs at this path, in this order. */
  ghost predicate BlobsAt(g: GitTree, parts: seq<Bytes>, blobs: seq<GitEntry>)
    requires parts != []
    decreases |parts|
  {
    if |parts| == 1 then BlobsNamed(g.entries, parts[0]) == blobs
    else if exists e :: e in g.entries && e.Subtree? && e.name == parts[0] then
      exists e :: e in g.entries && e.Subtree? && e.name == parts[0] && BlobsAt(e.tree, parts[1..], blobs)
    else blobs == []
  }

  lemma {:induction false} WrittenTreeKeepsTheOrder(t: PendingTree, g: GitTree, parts: seq<Bytes>)
    requires Written(t, g) && parts != [] && AreNames(parts)
    ensures BlobsAt(g, parts, MapAll(BlobOf, FilesAt(t, parts)))
    decreases |parts|
  {
    var name := parts[0];
    assert IsName(name);
    if |parts| == 1 {
      DirectoryKeepsTheOrder(t, g, name);
    } else {
      forall e | e in g.entries && e.Subtree? && e.name == name
        ensures name in t.directories
                && BlobsAt(e.tree, parts[1..], MapAll(BlobOf, FilesAt(t.directories[name], parts[1..])))
      {
        SubtreeIsWritten(t, g, e);
        WrittenTreeKeepsTheOrder(t.directories[name], e.tree, parts[1..]);
      }
      if name in t.directories {
        WrittenBag(t, g);
        var e :| e in multiset(g.entries) && e.Subtree? && e.name == name;
        assert e in g.entries;
      }
    }
  }

  /** The files that the index has at this path, empty parts aside, in the order of its entries. */
  function EntriesAt(entries: seq<IndexEntry>, path: Bytes): seq<GitEntry>
    requires Accepted(entries) && Parts(path) != []
  {
    if entries == [] then []
    else
      var last := entries[|entries| - 1];
      EntriesAt(entries[..|entries| - 1], path)
      + if NormalPath(last.path) == path then [BlobAt(path, last)] else []
  }

  /** The entry as a blob with the last part of the path as its name. */
  function BlobAt(path: Bytes, entry: IndexEntry): GitEntry
    requires EntryError(entry).None? && Parts(path) != []
  {
    Blob(Parts(path)[|Parts(path)| - 1], entry.kind.value, entry.oid)
  }

  lemma SamePathIff(path: Bytes, other: Bytes)
    requires CleanPath(path)
    ensures Parts(other) == Parts(path) <==> NormalPath(other) == path
  {
    NormalPathIff(path);
    if NormalPath(other) == path {
      JoinIsInjective(Parts(other), Parts(path));
    }
  }

  lemma BlobOfLeaf(entry: IndexEntry, path: Bytes)
    requires EntryError(entry).None? && CleanPath(path) && Parts(path) != []
    ensures MapAll(BlobOf, FileIf(LeafOf(entry), Parts(path)))
            == if NormalPath(entry.path) == path then [BlobAt(path, entry)] else []
  {
    SamePathIff(path, entry.path);
  }

  lemma LeavesAtNext(entries: seq<IndexEntry>, n: nat, parts: seq<Bytes>)
    requires Accepted(entries) && |entries| == n + 1 && parts != []
    ensures LeavesAt(Leaves(entries), parts)
            == LeavesAt(Leaves(entries[..n]), parts) + FileIf(LeafOf(entries[n]), parts)
  {
    assert Leaves(entries)[..n] == Leaves(entries[..n]);
  }

  lemma {:induction false} LeavesOfEntriesAt(entries: seq<IndexEntry>, path: Bytes)
    requires Accepted(entries) && CleanPath(path) && Parts(path) != []
    ensures MapAll(BlobOf, LeavesAt(Leaves(entries), Parts(path))) == EntriesAt(entries, path)
    decreases |entries|
  {
    if entries != [] {
      var n := |entries| - 1;
      LeavesOfEntriesAt(entries[..n], path);
      LeavesAtNext(entries, n, Parts(path));
      MapOfConcat(BlobOf, LeavesAt(Leaves(entries[..n]), Parts(path)), FileIf(LeafOf(entries[n]), Parts(path)));
      BlobOfLeaf(entries[n], path);
    }
  }

  /** Entries of one path are written in the order of the index. */
  lemma FilesOfOneNameKeepTheirOrder(entries: seq<IndexEntry>, g: GitTree, path: Bytes)
    requires Accepted(entries) && Written(InsertAll(EMPTY, Leaves(entries)), g)
    requires CleanPath(path) && Parts(path) != []
    ensures BlobsAt(g, Parts(path), EntriesAt(entries, path))
  {
    TreeKeepsTheOrder(Leaves(entries), Parts(path));
    LeavesOfEntriesAt(entries, path);
    WrittenTreeKeepsTheOrder(InsertAll(EMPTY, Leaves(entries)), g, Parts(path));
  }

  // ----- The written tree flattens to the index -----

  /** Whether the tree holds a file of this kind and content at this path. */
  ghost predicate InTree(g: GitTree, leaf: Leaf)
    requires leaf.parts != []
    decreases |leaf.parts|
  {
    if |leaf.parts| == 1 then Blob(leaf.parts[0], leaf.kind, leaf.oid) in g.entries
    else
      exists e ::
        e in g.entries && e.Subtree? && e.name == leaf.parts[0] && InTree(e.tree, leaf.(parts := leaf.parts[1..]))
  }

  lemma {:induction false} WrittenHolds(t: PendingTree, g: GitTree, leaf: Leaf)
    requires Written(t, g) && leaf.parts != []
    ensures InTree(g, leaf) <==> Count(t, leaf) > 0
    decreases |leaf.parts|
  {
    var bag := multiset(g.entries);
    WrittenBag(t, g);
    if |leaf.parts| == 1 {
      var f := PendingFile(leaf.parts[0], leaf.kind, leaf.oid);
      assert bag[BlobOf(f)] == multiset(t.files)[f];
    } else {
      var name, below := leaf.parts[0], leaf.(parts := leaf.parts[1..]);
      forall e | e in g.entries && e.Subtree? && e.name == name
        ensures name in t.directories && (InTree(e.tree, below) <==> Count(t.directories[name], below) > 0)
      {
        assert e in bag;
        WrittenHolds(t.directories[name], e.tree, below);
      }
      if name in t.directories {
        var e :| e in bag && e.Subtree? && e.name == name;
        assert e in g.entries;
      }
    }
  }

  lemma {:induction false} LeavesInTree(leaves: seq<Leaf>, g: GitTree, leaf: Leaf)
    requires forall i :: 0 <= i < |leaves| ==> leaves[i].parts != []
    requires Written(InsertAll(EMPTY, leaves), g) && leaf.parts != []
    ensures InTree(g, leaf) <==> leaf in leaves
  {
    WrittenHolds(InsertAll(EMPTY, leaves), g, leaf);
    TreeHoldsTheIndex(leaves, leaf);
  }

  /** Flattening: the tree has a file of this kind and content at this slash path. */
  ghost predicate FileAt(g: GitTree, path: Bytes, kind: Kind, oid: nat)
    decreases |path|
  {
    Blob(path, kind, oid) in g.entries
    || exists e ::
         e in g.entries && e.Subtree? && Inside(path, e.name) && FileAt(e.tree, path[|e.name| + 1..], kind, oid)
  }

  lemma {:induction false} LeafIsFile(g: GitTree, leaf: Leaf)
    requires leaf.parts != [] && InTree(g, leaf)
    ensures FileAt(g, JoinParts(leaf.parts), leaf.kind, leaf.oid)
    decreases |leaf.parts|
  {
    if |leaf.parts| > 1 {
      var below := leaf.(parts := leaf.parts[1..]);
      var e :| e in g.entries && e.Subtree? && e.name == leaf.parts[0] && InTree(e.tree, below);
      LeafIsFile(e.tree, below);
      var path := JoinParts(leaf.parts);
      assert path[|e.name| + 1..] == JoinParts(below.parts);
    }
  }

  lemma LeafBelow(g: GitTree, e: GitEntry, leaf: Leaf)
    requires e in g.entries && e.Subtree? && leaf.parts != [] && InTree(e.tree, leaf)
    ensures InTree(g, leaf.(parts := [e.name] + leaf.parts))
  {
  }

  lemma JoinInside(path: Bytes, name: Bytes, rest: seq<Bytes>)
    requires Inside(path, name) && rest != [] && JoinParts(rest) == path[|name| + 1..]
    ensures JoinParts([name] + rest) == path
  {
  }

  lemma {:induction false} FileIsLeaf(g: GitTree, path: Bytes, kind: Kind, oid: nat) returns (parts: seq<Bytes>)
    requires FileAt(g, path, kind, oid)
    ensures parts != [] && JoinParts(parts) == path && InTree(g, Leaf(parts, kind, oid))
    decreases |path|
  {
    if Blob(path, kind, oid) in g.entries {
      parts := [path];
    } else {
      var e :| e in g.entries && e.Subtree? && Inside(path, e.name) && FileAt(e.tree, path[|e.name| + 1..], kind, oid);
      var rest := FileIsLeaf(e.tree, path[|e.name| + 1..], kind, oid);
      parts := [e.name] + rest;
      JoinInside(path, e.name, rest);
      LeafBelow(g, e, Leaf(rest, kind, oid));
    }
  }

  /** The entry is a file of this kind and content, and its path is this one, empty parts aside. */
  predicate EntryIsFile(entry: IndexEntry, path: Bytes, kind: Kind, oid: nat) {
    NormalPath(entry.path) == path && entry.kind == Some(kind) && entry.oid == oid
  }

  lemma EntryIsInTree(entries: seq<IndexEntry>, g: GitTree, i: nat)
    requires Accepted(entries) && Written(InsertAll(EMPTY, Leaves(entries)), g) && i < |entries|
    ensures FileAt(g, NormalPath(entries[i].path), entries[i].kind.value, entries[i].oid)
  {
    var leaf := Leaves(entries)[i];
    LeavesInTree(Leaves(entries), g, leaf);
    LeafIsFile(g, leaf);
  }

  /** Flattening the written tree gives back exactly the paths, kinds and contents of the index. */
  lemma WrittenTreeFlattensToTheIndex(entries: seq<IndexEntry>, g: GitTree, path: Bytes, kind: Kind, oid: nat)
    requires Accepted(entries) && Written(InsertAll(EMPTY, Leaves(entries)), g)
    ensures FileAt(g, path, kind, oid) <==> exists i :: 0 <= i < |entries| && EntryIsFile(entries[i], path, kind, oid)
  {
    if FileAt(g, path, kind, oid) {
      var parts := FileIsLeaf(g, path, kind, oid);
      LeavesInTree(Leaves(entries), g, Leaf(parts, kind, oid));
      var i :| 0 <= i < |entries| && Leaves(entries)[i] == Leaf(parts, kind, oid);
      assert EntryIsFile(entries[i], path, kind, oid);
    }
    if i :| 0 <= i < |entries| && EntryIsFile(entries[i], path, kind, oid) {
      EntryIsInTree(entries, g, i);
    }
  }

  /** For the clean paths that git writes into an index, these are the paths themselves. */
  lemma CleanIndexIsRestored(entries: seq<IndexEntry>, g: GitTree, path: Bytes, kind: Kind, oid: nat)
    requires Accepted(entries) && Written(InsertAll(EMPTY, Leaves(entries)), g)
    requires forall i :: 0 <= i < |entries| ==> CleanPath(entries[i].path)
    ensures FileAt(g, path, kind, oid) <==>
            exists i :: 0 <= i < |entries| && entries[i] == IndexEntry(path, false, Some(kind), oid)
  {
    WrittenTreeFlattensToTheIndex(entries, g, path, kind, oid);
    forall i | 0 <= i < |entries| ensures NormalPath(entries[i].path) == entries[i].path && !entries[i].conflicted {
      NormalPathIff(entries[i].path);
    }
    if i :| 0 <= i < |entries| && entries[i] == IndexEntry(path, false, Some(kind), oid) {
      assert EntryIsFile(entries[i], path, kind, oid);
    }
  }

  // ----- The written tree does not depend on the order of the index -----

  /** The same up to the order of files. */
  ghost predicate Equivalent(t: PendingTree, u: PendingTree) {
    multiset(t.files) == multiset(u.files) && t.directories.Keys == u.directories.Keys
    && forall d :: d in t.directories ==> Equivalent(t.directories[d], u.directories[d])
  }

  lemma {:induction false} SameHoldingsAreEquivalent(t: PendingTree, u: PendingTree)
    requires forall leaf: Leaf :: leaf.parts != [] ==> Count(t, leaf) == Count(u, leaf)
    requires forall q :: IsDirectory(t, q) <==> IsDirectory(u, q)
    ensures Equivalent(t, u)
    decreases t
  {
    forall f: PendingFile ensures multiset(t.files)[f] == multiset(u.files)[f] {
      var leaf := Leaf([f.name], f.kind, f.oid);
      assert Count(t, leaf) == Count(u, leaf);
    }
    forall d ensures d in t.directories <==> d in u.directories {
      assert [d][0] == d && [d][1..] == [];
      assert IsDirectory(t, [d]) <==> d in t.directories;
      assert IsDirectory(u, [d]) <==> d in u.directories;
    }
    forall d | d in t.directories ensures Equivalent(t.directories[d], u.directories[d]) {
      forall leaf: Leaf | leaf.parts != [] ensures Count(t.directories[d], leaf) == Count(u.directories[d], leaf) {
        var outer := leaf.(parts := [d] + leaf.parts);
        assert outer.parts[1..] == leaf.parts;
        assert Count(t, outer) == Count(u, outer);
      }
      forall q ensures IsDirectory(t.directories[d], q) <==> IsDirectory(u.directories[d], q) {
        assert ([d] + q)[1..] == q;
        assert IsDirectory(t, [d] + q) <==> IsDirectory(u, [d] + q);
      }
      SameHoldingsAreEquivalent(t.directories[d], u.directories[d]);
    }
  }

  ghost predicate SlashFree(t: PendingTree) {
    (forall i :: 0 <= i < |t.files| ==> SLASH !in t.files[i].name)
    && forall d :: d in t.directories ==> SlashFree(t.directories[d])
  }

  predicate DistinctKeys(entries: seq<GitEntry>) {
    forall i, j :: 0 <= i < j < |entries| ==> SortKey(entries[i]) != SortKey(entries[j])
  }

  lemma WrittenBlobIsAFile(t: PendingTree, g: GitTree, i: nat) returns (f: PendingFile)
    requires Written(t, g) && i < |g.entries| && g.entries[i].Blob?
    ensures BlobOf(f) == g.entries[i] && f in t.files
  {
    WrittenBag(t, g);
    f := PendingFile(g.entries[i].name, g.entries[i].kind, g.entries[i].oid);
    assert BlobOf(f) in multiset(g.entries);
    assert multiset(t.files)[f] > 0;
  }

  /** In a legal tree no two entries compare equal, so sorting leaves no choice. */
  lemma LegalTreesHaveDistinctKeys(t: PendingTree, g: GitTree)
    requires Written(t, g) && WellFormed(t) && SlashFree(t)
    ensures DistinctKeys(g.entries)
  {
    forall i, j | 0 <= i < j < |g.entries| ensures SortKey(g.entries[i]) != SortKey(g.entries[j]) {
      EntriesDiffer(t, g, i, j);
    }
  }

  lemma BlobKeysDiffer(t: PendingTree, g: GitTree, i: nat, j: nat)
    requires Written(t, g) && WellFormed(t) && i < j < |g.entries| && g.entries[i].Blob? && g.entries[j].Blob?
    ensures g.entries[i].name != g.entries[j].name
  {
    WrittenBag(t, g);
    var f := WrittenBlobIsAFile(t, g, i);
    var h := WrittenBlobIsAFile(t, g, j);
    FilesDiffer(t, f, h);
    assert multiset(g.entries)[BlobOf(f)] == multiset(t.files)[f];
    if g.entries[i] == g.entries[j] {
      RepeatedElement(g.entries, i, j);
    }
  }

  lemma SubtreeKeysDiffer(t: PendingTree, g: GitTree, i: nat, j: nat)
    requires Written(t, g) && i < j < |g.entries| && g.entries[i].Subtree? && g.entries[j].Subtree?
    ensures g.entries[i].name != g.entries[j].name
  {
    WrittenBag(t, g);
    assert g.entries[i] in multiset(g.entries) && g.entries[j] in multiset(g.entries);
    if g.entries[i] == g.entries[j] {
      RepeatedElement(g.entries, i, j);
    }
  }

  lemma EntriesDiffer(t: PendingTree, g: GitTree, i: nat, j: nat)
    requires Written(t, g) && WellFormed(t) && SlashFree(t)
    requires i < j < |g.entries|
    ensures SortKey(g.entries[i]) != SortKey(g.entries[j])
  {
    var d, e := g.entries[i], g.entries[j];
    if d.Blob? && e.Blob? {
      BlobKeysDiffer(t, g, i, j);
    } else if d.Blob? {
      var f := WrittenBlobIsAFile(t, g, i);
      assert SLASH !in f.name && SortKey(e)[|e.name|] == SLASH;
    } else if e.Blob? {
      var f := WrittenBlobIsAFile(t, g, j);
      assert SLASH !in f.name && SortKey(d)[|d.name|] == SLASH;
    } else {
      SubtreeKeysDiffer(t, g, i, j);
      assert SortKey(d)[..|SortKey(d)| - 1] == d.name && SortKey(e)[..|SortKey(e)| - 1] == e.name;
    }
  }

  lemma FilesDiffer(t: PendingTree, f: PendingFile, h: PendingFile)
    requires WellFormed(t) && f in t.files && h in t.files
    ensures f.name == h.name ==> f == h && multiset(t.files)[f] < 2
  {
    if f.name == h.name {
      var x :| 0 <= x < |t.files| && t.files[x] == f;
      var y :| 0 <= y < |t.files| && t.files[y] == h;
      assert x == y;
      if multiset(t.files)[f] >= 2 {
        var k, l := TwoOccurrences(t.files, f);
        assert false;
      }
    }
  }

  lemma {:induction false} SortedIsUnique(a: seq<GitEntry>, b: seq<GitEntry>)
    requires Sorted(EntryLe, a) && Sorted(EntryLe, b) && DistinctKeys(a) && multiset(a) == multiset(b)
    ensures a == b
    decreases |a|
  {
    if a == [] {
      assert |multiset(b)| == |b|;
    } else {
      var k := RemoveFromBoth(a, b);
      SmallestIsFirst(a, b, k);
      SortedIsUnique(a[1..], b[1..]);
      assert a == [a[0]] + a[1..] && b == [b[0]] + b[1..];
    }
  }

  lemma {:induction false} SmallestIsFirst(a: seq<GitEntry>, b: seq<GitEntry>, k: nat)
    requires a != [] && k < |b| && b[k] == a[0]
    requires Sorted(EntryLe, a) && Sorted(EntryLe, b) && DistinctKeys(a) && multiset(a) == multiset(b)
    ensures a[0] == b[0] && multiset(a[1..]) == multiset(b[1..])
  {
    assert b[0] in multiset(a);
    var l :| 0 <= l < |a| && a[l] == b[0];
    NamesAreOrdered();
    assert EntryLe(a[0], b[0]) && EntryLe(b[0], a[0]) ==> SortKey(a[0]) == SortKey(b[0]);
    assert l == 0;
    BagOfTail(a);
    BagOfTail(b);
  }

  ghost predicate SubtreesAgree(one: multiset<GitEntry>, two: multiset<GitEntry>) {
    forall d, e :: d in one && d.Subtree? && e in two && e.Subtree? && d.name == e.name ==> d == e
  }

  lemma SubtreeInBoth(
    names: set<Bytes>, written: Subtrees, writtenToo: Subtrees, one: multiset<GitEntry>, two: multiset<GitEntry>,
    e: GitEntry)
    requires SubtreesOf(names, written, one) && SubtreesOf(names, writtenToo, two)
    requires SubtreesAgree(one, two) || SubtreesAgree(two, one)
    requires e.Subtree?
    ensures e in one ==> one[e] == 1 && two[e] == 1
  {
  }

  lemma SameBags(
    files: seq<PendingFile>, others: seq<PendingFile>, names: set<Bytes>, written: Subtrees, writtenToo: Subtrees,
    one: multiset<GitEntry>, two: multiset<GitEntry>)
    requires BlobsOf(files, one) && BlobsOf(others, two) && multiset(files) == multiset(others)
    requires SubtreesOf(names, written, one) && SubtreesOf(names, writtenToo, two) && SubtreesAgree(one, two)
    ensures one == two
  {
    forall e ensures one[e] == two[e] {
      if e.Blob? {
        var f := PendingFile(e.name, e.kind, e.oid);
        assert one[BlobOf(f)] == two[BlobOf(f)];
      } else {
        SubtreeInBoth(names, written, writtenToo, one, two, e);
        SubtreeInBoth(names, writtenToo, written, two, one, e);
      }
    }
  }

  lemma {:induction false} WrittenIsUnique(t: PendingTree, g: GitTree, u: PendingTree, h: GitTree)
    requires Written(t, g) && Written(u, h) && Equivalent(t, u) && WellFormed(t) && SlashFree(t)
    ensures g == h
    decreases t
  {
    forall d, e | d in multiset(g.entries) && d.Subtree? && e in multiset(h.entries) && e.Subtree? && d.name == e.name
      ensures d == e
    {
      SubtreeIsWritten(t, g, d);
      SubtreeIsWritten(u, h, e);
      WrittenIsUnique(t.directories[d.name], d.tree, u.directories[d.name], e.tree);
    }
    assert SubtreesAgree(multiset(g.entries), multiset(h.entries));
    WrittenBag(t, g);
    WrittenBag(u, h);
    SameBags(
      t.files, u.files, t.directories.Keys, WrittenBelow(t), WrittenBelow(u), multiset(g.entries), multiset(h.entries));
    LegalTreesHaveDistinctKeys(t, g);
    SortedIsUnique(g.entries, h.entries);
  }

  lemma {:induction false} InsertKeepsSlashFree(t: PendingTree, parts: seq<Bytes>, kind: Kind, oid: nat)
    requires SlashFree(t) && parts != [] && forall i :: 0 <= i < |parts| ==> SLASH !in parts[i]
    ensures SlashFree(Insert(t, parts, kind, oid))
    decreases |parts|
  {
    if |parts| > 1 {
      InsertKeepsSlashFree(Child(t, parts[0]), parts[1..], kind, oid);
    }
  }

  predicate CleanLeaves(leaves: seq<Leaf>) {
    forall i :: 0 <= i < |leaves| ==>
      leaves[i].parts != [] && forall k :: 0 <= k < |leaves[i].parts| ==> SLASH !in leaves[i].parts[k]
  }

  lemma {:induction false} InsertAllIsSlashFree(leaves: seq<Leaf>)
    requires CleanLeaves(leaves)
    ensures SlashFree(InsertAll(EMPTY, leaves))
    decreases |leaves|
  {
    if leaves != [] {
      InsertAllIsSlashFree(leaves[..|leaves| - 1]);
      var last := leaves[|leaves| - 1];
      InsertKeepsSlashFree(InsertAll(EMPTY, leaves[..|leaves| - 1]), last.parts, last.kind, last.oid);
    }
  }

  /** Trees of the same index entries in another order are equivalent. */
  lemma PermutedIndexIsEquivalent(leaves: seq<Leaf>, others: seq<Leaf>)
    requires CleanLeaves(leaves) && CleanLeaves(others) && multiset(leaves) == multiset(others)
    ensures Equivalent(InsertAll(EMPTY, leaves), InsertAll(EMPTY, others))
  {
    var t, u := InsertAll(EMPTY, leaves), InsertAll(EMPTY, others);
    forall leaf: Leaf | leaf.parts != [] ensures Count(t, leaf) == Count(u, leaf) {
      TreeHoldsTheIndex(leaves, leaf);
      TreeHoldsTheIndex(others, leaf);
    }
    forall q ensures IsDirectory(t, q) <==> IsDirectory(u, q) {
      if q != [] {
        DirectoriesOfTheIndex(leaves, q);
        DirectoriesOfTheIndex(others, q);
        SomeLeafInBoth(leaves, others, q);
        SomeLeafInBoth(others, leaves, q);
      }
    }
    SameHoldingsAreEquivalent(t, u);
  }

  lemma SomeLeafInBoth(leaves: seq<Leaf>, others: seq<Leaf>, q: seq<Bytes>)
    requires multiset(leaves) == multiset(others)
    ensures (exists i :: 0 <= i < |leaves| && ProperPrefix(q, leaves[i].parts)) ==>
            exists i :: 0 <= i < |others| && ProperPrefix(q, others[i].parts)
  {
    if i :| 0 <= i < |leaves| && ProperPrefix(q, leaves[i].parts) {
      assert leaves[i] in multiset(others);
      var j :| 0 <= j < |others| && others[j] == leaves[i];
      assert ProperPrefix(q, others[j].parts);
    }
  }

  lemma LeavesIgnoreOrder(leaves: seq<Leaf>, g: GitTree, others: seq<Leaf>, h: GitTree)
    requires CleanLeaves(leaves) && CleanLeaves(others) && multiset(leaves) == multiset(others)
    requires PrefixFree(leaves)
    requires Written(InsertAll(EMPTY, leaves), g) && Written(InsertAll(EMPTY, others), h)
    ensures g == h
  {
    PermutedIndexIsEquivalent(leaves, others);
    LegalIffPrefixFree(leaves);
    InsertAllIsSlashFree(leaves);
    WrittenIsUnique(InsertAll(EMPTY, leaves), g, InsertAll(EMPTY, others), h);
  }

  lemma LeavesWithout(entries: seq<IndexEntry>, k: nat)
    requires Accepted(entries) && k < |entries|
    ensures Accepted(RemoveAt(entries, k))
    ensures multiset(Leaves(entries)) == multiset(Leaves(RemoveAt(entries, k))) + multiset{LeafOf(entries[k])}
  {
    BagOfRemoved(Leaves(entries), k);
    assert RemoveAt(Leaves(entries), k) == Leaves(RemoveAt(entries, k));
  }

  lemma {:induction false} PermutedLeaves(entries: seq<IndexEntry>, others: seq<IndexEntry>)
    requires Accepted(entries) && Accepted(others) && multiset(entries) == multiset(others)
    ensures multiset(Leaves(entries)) == multiset(Leaves(others))
    decreases |entries|
  {
    if entries == [] {
      assert |multiset(others)| == |others|;
    } else {
      var k := RemoveFromBoth(entries, others);
      LeavesWithout(entries, 0);
      LeavesWithout(others, k);
      assert RemoveAt(entries, 0) == entries[1..];
      PermutedLeaves(entries[1..], RemoveAt(others, k));
    }
  }

  lemma LeavesAreClean(entries: seq<IndexEntry>)
    requires Accepted(entries)
    ensures CleanLeaves(Leaves(entries))
  {
  }

  /** When no two paths are equal or nested, the written tree does not depend on the order of the index. */
  lemma WrittenTreeIgnoresOrder(entries: seq<IndexEntry>, g: GitTree, others: seq<IndexEntry>, h: GitTree)
    requires Accepted(entries) && Accepted(others) && multiset(entries) == multiset(others)
    requires PathsPrefixFree(entries)
    requires Written(InsertAll(EMPTY, Leaves(entries)), g) && Written(InsertAll(EMPTY, Leaves(others)), h)
    ensures g == h
  {
    PermutedLeaves(entries, others);
    LeavesAreClean(entries);
    LeavesAreClean(others);
    PrefixFreeIff(entries);
    LeavesIgnoreOrder(Leaves(entries), g, Leaves(others), h);
  }

  /** `write_tree_from_index`. */
  method WriteTreeFromIndex(entries: seq<IndexEntry>) returns (r: Result<GitTree, TreeError>)
    ensures r.Ok? <==> Accepted(entries)
    ensures r.Ok? ==> Written(InsertAll(EMPTY, Leaves(entries)), r.value) && Canonical(r.value)
    ensures r.Ok? ==>
              forall path, kind, oid ::
                FileAt(r.value, path, kind, oid) <==>
                  exists i :: 0 <= i < |entries| && EntryIsFile(entries[i], path, kind, oid)
    ensures r.Err? ==> exists i :: 0 <= i < |entries| && EntryError(entries[i]) == Some(r.error)
                                   && forall k :: 0 <= k < i ==> EntryError(entries[k]).None?
  {
    var root := CollectIndex(entries);
    if root.Err? {
      return Err(root.error);
    }
    var g := WriteTree(root.value);
    WrittenIsCanonical(root.value, g);
    forall path, kind, oid
      ensures FileAt(g, path, kind, oid) <==> exists i :: 0 <= i < |entries| && EntryIsFile(entries[i], path, kind, oid)
    {
      WrittenTreeFlattensToTheIndex(entries, g, path, kind, oid);
    }
    return Ok(g);
  }
}
