/** What a snapshot holds (internal/verify/fingerprint.go), over the disk and the listing alone. */
module SnapshotLaws {
  // Everything at or below a declared input that nothing excludes, as the disk has it: from the
  // disk, or from the trees of what git lists.  So a change to any such file changes the key.

  import opened Options
  import opened Paths
  import opened FileSet
  import opened FileSetReaders

  // ---- What is there ----

  predicate OnDisk(disk: Node, rel: Rel) {
    Lookup(disk, rel).Here?
  }

  predicate HasFile(disk: Node, rel: Rel, data: string) {
    Lookup(disk, rel) == Here(File(data))
  }

  /** No exclude covers the path, and none of its components from the tree's root on is a .git. */
  predicate Unexcluded(root: Rel, rel: Rel, excludes: seq<string>) {
    && (forall p :: p in excludes ==> !Under(Path(rel), p))
    && (forall k :: |root| <= k <= |rel| ==> Name(rel[..k]) != ".git")
  }

  /** The path is there, at or below the tree's root, and nothing on the way is excluded. */
  predicate InTreeOf(disk: Node, root: Rel, rel: Rel, excludes: seq<string>) {
    root <= rel && OnDisk(disk, rel) && Unexcluded(root, rel, excludes)
  }

  /** Some directory above the input is a file, so nothing can be there. */
  ghost predicate BelowFile(disk: Node, input: Rel) {
    exists n, data :: 0 < n < |input| && HasFile(disk, input[..n], data)
  }

  /** Some directory above the input is listed as a whole, and is there. */
  predicate BelowListed(disk: Node, listed: seq<string>, input: Rel) {
    exists n :: 0 < n < |input| && OnDisk(disk, input[..n]) && Path(input[..n]) in listed
  }

  predicate NothingListed(listed: seq<string>, input: Rel) {
    forall p :: p in listed ==> !Under(p, Path(input))
  }

  /** The tree of a listed path that the input covers. */
  predicate InListedTree(disk: Node, listed: seq<string>, input: Rel, rel: Rel, excludes: seq<string>, p: string) {
    p in listed && Under(p, Path(input)) && InTreeOf(disk, Split(p), rel, excludes)
  }

  /** Where an input's files come from. */
  predicate FromDisk(disk: Node, s: Set, input: Rel) {
    s.listed.None? || BelowListed(disk, s.listed.value, input)
  }

  /** What a declared input puts in the snapshot: itself, when it is not there and git lists nothing
      of it; otherwise its tree, or the trees of what git lists. */
  ghost predicate Holds(disk: Node, s: Set, input: Rel, rel: Rel) {
    && Unexcluded(input, input, s.excludes)
    && if BelowFile(disk, input) then rel == input
       else if FromDisk(disk, s, input) then InTreeOf(disk, input, rel, s.excludes) || (!OnDisk(disk, input) && rel == input)
       else
         || (exists p :: InListedTree(disk, s.listed.value, input, rel, s.excludes, p))
         || (NothingListed(s.listed.value, input) && !OnDisk(disk, input) && rel == input)
  }

  // ---- The snapshot holds exactly that ----

  lemma RootIsExcluded(root: Rel, excludes: seq<string>)
    ensures Excluded(root, excludes) <==> !Unexcluded(root, root, excludes)
  {
    assert root[..|root|] == root;
    ExcludingIsFiltering(root, root, excludes);
  }

  lemma TreeExactlyWhen(disk: Node, root: Rel, rel: Rel, excludes: seq<string>)
    ensures (exists seen :: InTree(disk, root, Visit(rel, seen), excludes, NoSkips())) <==> InTreeOf(disk, root, rel, excludes)
  {
    hide Lookup;
    hide Excluded;
    hide Path;
    if root <= rel {
      ExcludingIsFiltering(root, rel, excludes);
    }
    if InTreeOf(disk, root, rel, excludes) {
      assert InTree(disk, root, Visit(rel, SeenOf(Lookup(disk, rel).node)), excludes, NoSkips());
    }
  }

  lemma CutExactlyWhen(disk: Node, input: Rel)
    ensures Cut(disk, input) <==> BelowFile(disk, input)
  {
    hide Lookup;
    if n :| 0 < n < |input| && IsFile(disk, input[..n]) {
      assert HasFile(disk, input[..n], Lookup(disk, input[..n]).node.data);
    }
    if n, data :| 0 < n < |input| && HasFile(disk, input[..n], data) {
      assert IsFile(disk, input[..n]);
    }
  }

  lemma FromDiskExactlyWhen(disk: Node, s: Set, input: Rel)
    ensures FromDisk(disk, s, input) <==> !ByListing(disk, s, input)
  {
    hide Lookup;
    hide Path;
  }

  /** An input's tree needs the input itself to be there. */
  lemma TreeNeedsRoot(disk: Node, root: Rel, rel: Rel, excludes: seq<string>)
    requires InTreeOf(disk, root, rel, excludes)
    ensures OnDisk(disk, root) && Unexcluded(root, root, excludes)
  {
    assert rel[..|root|] == root;
    LookupShrinks(disk, rel, |root|);
    ExcludingIsFiltering(root, rel, excludes);
    assert !Excluded(rel[..|root|], excludes);
    RootIsExcluded(root, excludes);
  }

  lemma ListedTreesExactlyWhen(disk: Node, s: Set, input: Rel, rel: Rel)
    requires s.listed.Some?
    ensures (exists seen, p :: Covers(s, input, p) && InTree(disk, Split(p), Visit(rel, seen), s.excludes, NoSkips()))
       <==> exists p :: InListedTree(disk, s.listed.value, input, rel, s.excludes, p)
  {
    hide InTree;
    hide InTreeOf;
    hide Unexcluded;
    hide Excluded;
    hide Under;
    hide Split;
    hide Path;
    forall p ensures (exists seen :: InTree(disk, Split(p), Visit(rel, seen), s.excludes, NoSkips())) <==> InTreeOf(disk, Split(p), rel, s.excludes)
      ensures InTreeOf(disk, Split(p), rel, s.excludes) ==> !Excluded(Split(p), s.excludes)
    {
      TreeExactlyWhen(disk, Split(p), rel, s.excludes);
      RootIsExcluded(Split(p), s.excludes);
      if InTreeOf(disk, Split(p), rel, s.excludes) {
        TreeNeedsRoot(disk, Split(p), rel, s.excludes);
      }
    }
    if p :| InListedTree(disk, s.listed.value, input, rel, s.excludes, p) {
      var seen :| InTree(disk, Split(p), Visit(rel, seen), s.excludes, NoSkips());
      assert Covers(s, input, p);
    }
    if seen, p :| Covers(s, input, p) && InTree(disk, Split(p), Visit(rel, seen), s.excludes, NoSkips()) {
      assert InListedTree(disk, s.listed.value, input, rel, s.excludes, p);
    }
  }

  lemma InputExactlyWhen(disk: Node, s: Set, input: Rel, rel: Rel)
    requires disk.Dir?
    ensures (exists seen :: InInput(disk, s, input, NoSkips(), Visit(rel, seen))) <==> Holds(disk, s, input, rel)
  {
    hide InTree;
    hide InTreeOf;
    hide Unexcluded;
    hide Excluded;
    hide Covers;
    hide InListedTree;
    hide Nested;
    hide Cut;
    hide BelowFile;
    hide ByListing;
    hide FromDisk;
    hide Lookup;
    hide Under;
    RootIsExcluded(input, s.excludes);
    CutExactlyWhen(disk, input);
    FromDiskExactlyWhen(disk, s, input);
    TreeExactlyWhen(disk, input, rel, s.excludes);
    if !Cut(disk, input) {
      UncutIsNotBlocked(disk, input);
    }
    if InTreeOf(disk, input, rel, s.excludes) {
      TreeNeedsRoot(disk, input, rel, s.excludes);
    }
    ByListingIsListed(disk, s, input);
    if s.listed.Some? {
      ListedTreesExactlyWhen(disk, s, input, rel);
    }
    assert InInput(disk, s, input, NoSkips(), Visit(input, Missing)) <==>
      exists seen :: InInput(disk, s, input, NoSkips(), Visit(input, seen)) && seen == Missing;
  }

  lemma ByListingIsListed(disk: Node, s: Set, input: Rel)
    ensures ByListing(disk, s, input) ==> s.listed.Some?
  {
  }

  /** The snapshot's entries are exactly what its inputs hold, each as the disk has it. */
  lemma SnapshotExactlyWhen(disk: Node, s: Set, entries: map<Rel, Entry>, rel: Rel)
    requires disk.Dir? && IsSnapshot(disk, s, entries)
    ensures rel in entries <==> exists input :: input in s.inputs && Holds(disk, s, input, rel)
    ensures rel in entries ==>
              && (forall data :: entries[rel] == FileEntry(data) <==> HasFile(disk, rel, data))
              && (entries[rel] == MissingEntry <==> !OnDisk(disk, rel))
  {
    hide InInput;
    hide Holds;
    forall input ensures (exists seen :: InInput(disk, s, input, NoSkips(), Visit(rel, seen))) <==> Holds(disk, s, input, rel) {
      InputExactlyWhen(disk, s, input, rel);
    }
    if rel in entries {
      var seen :| Visits(disk, s, NoSkips(), Visit(rel, seen));
      var input :| input in s.inputs && InInput(disk, s, input, NoSkips(), Visit(rel, seen));
    }
    if input :| input in s.inputs && Holds(disk, s, input, rel) {
      var seen :| InInput(disk, s, input, NoSkips(), Visit(rel, seen));
      assert Visits(disk, s, NoSkips(), Visit(rel, seen));
    }
  }

  /** Without a listing: everything at or below an input that nothing excludes, and every input
      that is not there. */
  lemma FilesystemIsHeld(disk: Node, s: Set, entries: map<Rel, Entry>, input: Rel, rel: Rel)
    requires disk.Dir? && IsSnapshot(disk, s, entries) && s.listed.None?
    requires input in s.inputs && Unexcluded(input, input, s.excludes)
    ensures InTreeOf(disk, input, rel, s.excludes) ==> rel in entries
    ensures !OnDisk(disk, input) ==> input in entries && entries[input] == MissingEntry
  {
    hide Unexcluded;
    SnapshotExactlyWhen(disk, s, entries, rel);
    SnapshotExactlyWhen(disk, s, entries, input);
    if InTreeOf(disk, input, rel, s.excludes) {
      TreeNeedsRoot(disk, input, rel, s.excludes);
      ThereIsNoFileAbove(disk, input);
    }
  }

  lemma ThereIsNoFileAbove(disk: Node, rel: Rel)
    requires OnDisk(disk, rel)
    ensures !BelowFile(disk, rel)
  {
    if n, data :| 0 < n < |rel| && HasFile(disk, rel[..n], data) {
      LookupShrinks(disk, rel, n);
    }
  }

  /** Equal snapshots, equal files: whatever file either disk has in what its inputs hold, the
      other has with the same content.  So a change to a file, or its removal, changes the key. */
  lemma SameSnapshotSameFiles(a: Node, b: Node, s: Set, entries: map<Rel, Entry>, input: Rel, rel: Rel, data: string)
    requires a.Dir? && b.Dir? && IsSnapshot(a, s, entries) && IsSnapshot(b, s, entries)
    requires input in s.inputs && Holds(a, s, input, rel)
    ensures HasFile(a, rel, data) <==> HasFile(b, rel, data)
    ensures OnDisk(a, rel) <==> OnDisk(b, rel)
  {
    hide Holds;
    hide IsSnapshot;
    SnapshotExactlyWhen(a, s, entries, rel);
    SnapshotExactlyWhen(b, s, entries, rel);
  }

  /** Of the tree of a listed path, too. */
  lemma ListedIsHeld(disk: Node, s: Set, entries: map<Rel, Entry>, input: Rel, p: string, rel: Rel)
    requires disk.Dir? && IsSnapshot(disk, s, entries) && s.listed.Some?
    requires input in s.inputs && Unexcluded(input, input, s.excludes)
    requires !BelowFile(disk, input) && !BelowListed(disk, s.listed.value, input)
    requires InListedTree(disk, s.listed.value, input, rel, s.excludes, p)
    ensures rel in entries
  {
    hide InListedTree;
    hide Unexcluded;
    SnapshotExactlyWhen(disk, s, entries, rel);
    assert Holds(disk, s, input, rel);
  }

  // ---- What a scanner is shown of it ----

  /** A path is kept from a scanner when a component is .git or .env, or begins with ".env." and is
      not .env.example; or when a directory above it is one the caller skips. */
  lemma ShownExactlyWhen(rel: Rel, data: string, skip: Option<string -> bool>)
    ensures Shown(Visit(rel, Regular(data)), skip)
       <==> && (forall part :: part in rel ==> part != ".git" && part != ".env" && (".env." <= part ==> part == ".env.example"))
            && (skip.Some? ==> forall i :: 0 <= i < |rel| - 1 ==> !skip.value(rel[i]))
  {
    if rel != [] {
      assert forall i :: 0 <= i < |rel| - 1 ==> Parent(rel)[i] == rel[i];
    }
    assert (forall i :: 0 <= i < |rel| ==> !PrivatePart(rel[i])) <==> forall part :: part in rel ==> !PrivatePart(part);
  }

  /** So a scanner sees exactly the files its inputs hold, but for those: unless the root itself is
      skipped, which no caller does. */
  lemma VisibleExactlyWhen(disk: Node, s: Set, skip: Option<string -> bool>, entries: map<Rel, Entry>, files: set<Rel>, rel: Rel)
    requires disk.Dir? && IsSnapshot(disk, s, entries) && IsVisible(disk, s, skip, files)
    requires skip.Some? ==> !skip.value(".")
    ensures rel in files
       <==> && (exists input :: input in s.inputs && Holds(disk, s, input, rel)) && (exists data :: HasFile(disk, rel, data))
            && (forall part :: part in rel ==> part != ".git" && part != ".env" && (".env." <= part ==> part == ".env.example"))
            && (skip.Some? ==> forall i :: 0 <= i < |rel| - 1 ==> !skip.value(rel[i]))
  {
    hide IsSnapshot;
    hide IsVisible;
    hide Holds;
    hide PastRoot;
    hide Private;
    hide SkippedDir;
    VisibleAreKeyed(disk, s, s, skip, entries, files);
    SnapshotExactlyWhen(disk, s, entries, rel);
    ShownExactlyWhen(rel, "", skip);
    if rel in entries && entries[rel].FileEntry? {
      assert HasFile(disk, rel, entries[rel].data);
    }
  }
}
