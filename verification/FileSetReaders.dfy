/**
  A file set's walk over its inputs (internal/verify/enumerate.go), the snapshot a key hashes
  (fingerprint.go) and the files a scanner sees (visible.go), which read the same files.
 */
module FileSetReaders {
  import opened Options
  import opened Order
  import opened Paths
  import opened FileSet
  import Listing

  /** A listing git printed: sorted, each path clean. */
  ghost predicate Listed(listed: seq<string>) {
    Sorted(listed, TextLe) && forall p :: p in listed ==> Clean(Split(p)) && Path(Split(p)) == p
  }

  ghost predicate Valid(s: Set) {
    && (forall input :: input in s.inputs ==> Clean(input))
    && (s.listed.Some? ==> Listed(s.listed.value))
  }

  // ---- Reaching an input ----

  predicate IsFile(disk: Node, rel: Rel) {
    Lookup(disk, rel).Here? && Lookup(disk, rel).node.File?
  }

  /** Some directory above the input is a file. */
  predicate Cut(disk: Node, input: Rel) {
    exists n :: 0 < n < |input| && IsFile(disk, input[..n])
  }

  /** Some directory above the input is listed as a whole. */
  predicate Nested(disk: Node, listed: seq<string>, input: Rel, n: nat) {
    exists k :: 0 < k < n && k < |input| && Lookup(disk, input[..k]).Here? && Path(input[..k]) in listed
  }

  lemma NotBlocked(disk: Node, rel: Rel)
    requires forall n :: 0 <= n < |rel| ==> !IsFile(disk, rel[..n])
    ensures !Lookup(disk, rel).Blocked?
  {
    if Lookup(disk, rel).Blocked? {
      BlockedByFile(disk, rel);
    }
  }

  /** reach, over the directories above an input. */
  method Reach(disk: Node, listed: Option<seq<string>>, input: Rel) returns (reached: bool, nested: bool)
    requires listed.Some? ==> Sorted(listed.value, TextLe)
    requires disk.Dir?
    ensures reached <==> !Cut(disk, input)
    ensures reached ==> (nested <==> listed.Some? && Nested(disk, listed.value, input, |input|))
  {
    nested := false;
    var i := 1;
    while i < |input|
      invariant 1 <= i
      invariant forall n :: 0 < n < i && n < |input| ==> Lookup(disk, input[..n]).Here? && Lookup(disk, input[..n]).node.Dir?
      invariant nested <==> listed.Some? && Nested(disk, listed.value, input, i)
    {
      var parent := input[..i];
      var found := Lookup(disk, parent);
      if found.Absent? {
        forall n | i <= n < |input| ensures Lookup(disk, input[..n]).Absent? {
          LookupShrinks(disk, input[..n], i);
          assert input[..n][..i] == parent;
        }
        return true, nested;
      }
      forall n | 0 <= n < |parent| ensures !IsFile(disk, parent[..n]) {
        assert parent[..n] == input[..n];
      }
      NotBlocked(disk, parent);
      if found.node.File? {
        return false, false;
      }
      if listed.Some? {
        var here := Listing.ListedAt(listed.value, Path(parent));
        if here {
          nested := true;
        }
      }
      i := i + 1;
    }
    reached := true;
  }

  // ---- Walking one input ----

  /** A listed path the walk of an input goes into. */
  predicate Covers(s: Set, input: Rel, p: string) {
    s.listed.Some? && p in s.listed.value && Under(p, Path(input)) && !Excluded(Split(p), s.excludes)
  }

  /** Whether an input is enumerated from git's listing. */
  predicate ByListing(disk: Node, s: Set, input: Rel) {
    s.listed.Some? && !Nested(disk, s.listed.value, input, |input|)
  }

  /** Git lists nothing the input covers. */
  predicate Unlisted(s: Set, input: Rel) {
    s.listed.Some? && forall p :: p in s.listed.value ==> !Under(p, Path(input))
  }

  /** What the walk of one declared input visits. */
  ghost predicate InInput(disk: Node, s: Set, input: Rel, skips: Rel -> bool, v: Visit) {
    if Excluded(input, s.excludes) then false
    else if Cut(disk, input) then v == Visit(input, Missing)
    else if ByListing(disk, s, input) then
      || (exists p :: Covers(s, input, p) && InTree(disk, Split(p), v, s.excludes, skips))
      || (Unlisted(s, input) && Lookup(disk, input).Absent? && v == Visit(input, Missing))
    else if Lookup(disk, input).Absent? then v == Visit(input, Missing)
    else InTree(disk, input, v, s.excludes, skips)
  }

  /** A listed path whose directory is a file cannot be inspected, and fails the walk. */
  ghost predicate InputFails(disk: Node, s: Set, input: Rel) {
    && !Excluded(input, s.excludes) && !Cut(disk, input) && ByListing(disk, s, input)
    && exists p :: Covers(s, input, p) && Lookup(disk, Split(p)).Blocked?
  }

  /** walkListing. */
  method WalkListing(disk: Node, s: Set, input: Rel, skips: Rel -> bool) returns (visits: Option<seq<Visit>>)
    requires Valid(s) && s.listed.Some? && !Cut(disk, input) && disk.Dir?
    ensures visits.None? <==> exists p :: Covers(s, input, p) && Lookup(disk, Split(p)).Blocked?
    ensures visits.Some? ==> forall v :: v in visits.value <==>
              || (exists p :: Covers(s, input, p) && InTree(disk, Split(p), v, s.excludes, skips))
              || (Unlisted(s, input) && Lookup(disk, input).Absent? && v == Visit(input, Missing))
  {
    hide Excluded;
    hide WalkTree;
    hide Lookup;
    hide InTree;
    var covered := Listing.ListedUnder(s.listed.value, Path(input));
    var all: seq<Visit> := [];
    for i := 0 to |covered|
      invariant forall p :: p in covered[..i] && Covers(s, input, p) ==> !Lookup(disk, Split(p)).Blocked?
      invariant forall v :: v in all <==> exists p :: p in covered[..i] && Covers(s, input, p) && InTree(disk, Split(p), v, s.excludes, skips)
    {
      var p := covered[i];
      assert covered[..i + 1] == covered[..i] + [p];
      assert p in covered;
      if Excluded(Split(p), s.excludes) {
        continue;
      }
      assert Covers(s, input, p);
      var found := Lookup(disk, Split(p));
      if found.Blocked? {
        return None;
      }
      if found.Absent? {
        forall v ensures !InTree(disk, Split(p), v, s.excludes, skips) {
          AbsentHasNoTree(disk, Split(p), s.excludes, skips, v);
        }
      } else {
        forall v ensures v in WalkTree(found.node, Split(p), s.excludes, skips) <==> InTree(disk, Split(p), v, s.excludes, skips) {
          TreeVisits(disk, found.node, Split(p), s.excludes, skips, v);
        }
        all := all + WalkTree(found.node, Split(p), s.excludes, skips);
      }
    }
    assert covered[..|covered|] == covered;
    assert Unlisted(s, input) <==> covered == [] by {
      if covered != [] {
        assert covered[0] in covered;
      }
    }
    if covered == [] && Lookup(disk, input).Absent? {
      all := [Visit(input, Missing)];
    }
    visits := Some(all);
  }

  lemma AbsentHasNoTree(disk: Node, root: Rel, excludes: seq<string>, skips: Rel -> bool, v: Visit)
    requires Lookup(disk, root).Absent?
    ensures !InTree(disk, root, v, excludes, skips)
  {
    hide Excluded;
    if root <= v.rel {
      assert v.rel[..|root|] == root;
      LookupShrinks(disk, v.rel, |root|);
    }
  }

  // ---- Walking every input ----

  ghost predicate Fails(disk: Node, s: Set) {
    exists input :: input in s.inputs && InputFails(disk, s, input)
  }

  ghost predicate Visits(disk: Node, s: Set, skips: Rel -> bool, v: Visit) {
    exists input :: input in s.inputs && InInput(disk, s, input, skips, v)
  }

  /** What walk does for one input. */
  method WalkInput(disk: Node, s: Set, input: Rel, skips: Rel -> bool) returns (visits: Option<seq<Visit>>)
    requires Valid(s) && disk.Dir?
    ensures visits.None? <==> InputFails(disk, s, input)
    ensures visits.Some? ==> forall v :: v in visits.value <==> InInput(disk, s, input, skips, v)
  {
    hide InTree;
    hide Nested;
    hide Excluded;
    hide Cut;
    if Excluded(input, s.excludes) {
      return Some([]);
    }
    var reached, nested := Reach(disk, s.listed, input);
    if !reached {
      return Some([Visit(input, Missing)]);
    }
    if s.listed.Some? && !nested {
      visits := WalkListing(disk, s, input, skips);
      return visits;
    }
    UncutIsNotBlocked(disk, input);
    var found := Lookup(disk, input);
    if found.Absent? {
      return Some([Visit(input, Missing)]);
    }
    visits := Some(WalkTree(found.node, input, s.excludes, skips));
    forall v ensures v in visits.value <==> InTree(disk, input, v, s.excludes, skips) {
      TreeVisits(disk, found.node, input, s.excludes, skips, v);
    }
  }

  lemma UncutIsNotBlocked(disk: Node, input: Rel)
    requires disk.Dir? && !Cut(disk, input)
    ensures !Lookup(disk, input).Blocked?
  {
    NotBlocked(disk, input);
  }

  /** walk. */
  method Walk(disk: Node, s: Set, skips: Rel -> bool) returns (visits: Option<seq<Visit>>)
    requires Valid(s) && disk.Dir?
    ensures visits.None? <==> Fails(disk, s)
    ensures visits.Some? ==> forall v :: v in visits.value <==> Visits(disk, s, skips, v)
  {
    hide InInput;
    hide InputFails;
    var all: seq<Visit> := [];
    for i := 0 to |s.inputs|
      invariant forall input :: input in s.inputs[..i] ==> !InputFails(disk, s, input)
      invariant forall v :: v in all <==> exists input :: input in s.inputs[..i] && InInput(disk, s, input, skips, v)
    {
      assert s.inputs[..i + 1] == s.inputs[..i] + [s.inputs[i]];
      var more := WalkInput(disk, s, s.inputs[i], skips);
      if more.None? {
        return None;
      }
      all := all + more.value;
    }
    assert s.inputs[..|s.inputs|] == s.inputs;
    visits := Some(all);
  }

  // ---- What is visited is what is there ----

  datatype Entry = MissingEntry | DirectoryEntry | FileEntry(data: string)

  /** The entry a path on disk is recorded by. */
  function EntryOf(disk: Node, rel: Rel): Entry {
    match Lookup(disk, rel)
    case Here(File(data)) => FileEntry(data)
    case Here(Dir(_)) => DirectoryEntry
    case _ => MissingEntry
  }

  function EntryFor(seen: Seen): Entry {
    match seen
    case Missing => MissingEntry
    case Directory => DirectoryEntry
    case Regular(data) => FileEntry(data)
  }

  /** A visit is told what the disk holds. */
  lemma VisitsTellTruth(disk: Node, s: Set, skips: Rel -> bool, v: Visit)
    requires Visits(disk, s, skips, v)
    ensures EntryFor(v.seen) == EntryOf(disk, v.rel)
  {
    var input :| input in s.inputs && InInput(disk, s, input, skips, v);
    if Cut(disk, input) {
      var n :| 0 < n < |input| && IsFile(disk, input[..n]);
      LookupShrinks(disk, input, n);
    }
  }

  // ---- The snapshot ----

  function NoSkips(): Rel -> bool {
    (rel: Rel) => false
  }

  ghost predicate IsSnapshot(disk: Node, s: Set, entries: map<Rel, Entry>) {
    && (forall rel :: rel in entries <==> exists seen :: Visits(disk, s, NoSkips(), Visit(rel, seen)))
    && (forall rel :: rel in entries ==> entries[rel] == EntryOf(disk, rel))
  }

  /** snapshotEntries: record fills the entries and queues regular files, hashFiles reads those. */
  method SnapshotEntries(disk: Node, s: Set) returns (entries: Option<map<Rel, Entry>>)
    requires Valid(s) && disk.Dir?
    ensures entries.None? <==> Fails(disk, s)
    ensures entries.Some? ==> IsSnapshot(disk, s, entries.value)
  {
    hide Visits;
    hide EntryOf;
    hide Fails;
    var walked := Walk(disk, s, NoSkips());
    if walked.None? {
      return None;
    }
    var visits := walked.value;
    var recorded: map<Rel, Entry> := map[];
    var queue: seq<Visit> := [];
    for i := 0 to |visits|
      invariant forall rel :: rel in recorded <==> exists seen :: Visit(rel, seen) in visits[..i] && !seen.Regular?
      invariant forall rel :: rel in recorded ==> recorded[rel] == EntryOf(disk, rel)
      invariant forall v :: v in queue <==> v in visits[..i] && v.seen.Regular?
    {
      var v := visits[i];
      assert visits[..i + 1] == visits[..i] + [v];
      assert v in visits;
      VisitsTellTruth(disk, s, NoSkips(), v);
      assert v == Visit(v.rel, v.seen);
      match v.seen {
        case Missing => recorded := recorded[v.rel := MissingEntry];
        case Directory => recorded := recorded[v.rel := DirectoryEntry];
        case Regular(_) => queue := queue + [v];
      }
    }
    assert visits[..|visits|] == visits;
    ghost var plain := recorded;
    for i := 0 to |queue|
      invariant forall rel :: rel in recorded <==> rel in plain || exists seen :: Visit(rel, seen) in queue[..i]
      invariant forall rel :: rel in recorded ==> recorded[rel] == EntryOf(disk, rel)
    {
      var v := queue[i];
      assert queue[..i + 1] == queue[..i] + [v];
      assert v in queue && v == Visit(v.rel, v.seen);
      VisitsTellTruth(disk, s, NoSkips(), v);
      recorded := recorded[v.rel := FileEntry(v.seen.data)];
    }
    assert queue[..|queue|] == queue;
    entries := Some(recorded);
  }

  // ---- The visible files ----

  predicate PrivatePart(part: string) {
    part == ".git" || part == ".env" || (".env." <= part && part != ".env.example")
  }

  /** privateSourcePath. */
  predicate Private(rel: Rel) {
    exists i :: 0 <= i < |rel| && PrivatePart(rel[i])
  }

  predicate Skips(skip: Option<string -> bool>, name: string) {
    skip.Some? && skip.value(name)
  }

  /** skippedDir. */
  predicate SkippedDir(dir: Rel, skip: Option<string -> bool>) {
    exists i :: 0 <= i < |dir| && Skips(skip, dir[i])
  }

  function Parent(rel: Rel): Rel {
    if rel == [] then [] else rel[..|rel| - 1]
  }

  /** The directories visibleFiles' visitor answers SkipDir for. */
  function Pruned(skip: Option<string -> bool>): Rel -> bool {
    (rel: Rel) => Private(rel) || Skips(skip, Name(rel))
  }

  /** A file a scanner is given. */
  predicate Shown(v: Visit, skip: Option<string -> bool>) {
    v.seen.Regular? && !Private(v.rel) && !SkippedDir(Parent(v.rel), skip)
  }

  ghost predicate IsVisible(disk: Node, s: Set, skip: Option<string -> bool>, files: set<Rel>) {
    forall rel :: rel in files <==> exists seen :: Visits(disk, s, Pruned(skip), Visit(rel, seen)) && Shown(Visit(rel, seen), skip)
  }

  /** visibleFiles, before its files are put in order. */
  method VisibleFiles(disk: Node, s: Set, skip: Option<string -> bool>) returns (files: Option<set<Rel>>)
    requires Valid(s) && disk.Dir?
    ensures files.None? <==> Fails(disk, s)
    ensures files.Some? ==> IsVisible(disk, s, skip, files.value)
  {
    hide Visits;
    hide Shown;
    hide Fails;
    var walked := Walk(disk, s, Pruned(skip));
    if walked.None? {
      return None;
    }
    var visits := walked.value;
    var seen: set<Rel> := {};
    for i := 0 to |visits|
      invariant forall rel :: rel in seen <==> exists info :: Visit(rel, info) in visits[..i] && Shown(Visit(rel, info), skip)
    {
      var v := visits[i];
      assert visits[..i + 1] == visits[..i] + [v];
      assert v == Visit(v.rel, v.seen);
      if Shown(v, skip) {
        seen := seen + {v.rel};
      }
    }
    assert visits[..|visits|] == visits;
    files := Some(seen);
  }

  // ---- What a scanner reads is what its key hashed ----

  /** Stops at the root when its name, ".", is skipped, and nowhere else. */
  function AtRoot(skip: Option<string -> bool>): Rel -> bool {
    (rel: Rel) => rel == [] && Skips(skip, ".")
  }

  /** Of the directories above a file that is shown, only the root may be pruned. */
  lemma ShownIsNotPruned(v: Visit, skip: Option<string -> bool>, k: nat)
    requires Shown(v, skip) && k < |v.rel|
    ensures Pruned(skip)(v.rel[..k]) <==> AtRoot(skip)(v.rel[..k])
  {
    var dir := v.rel[..k];
    assert forall i :: 0 <= i < |dir| ==> dir[i] == v.rel[i];
    assert !Private(dir);
    if k > 0 {
      assert Parent(v.rel)[k - 1] == Name(dir);
    }
  }

  /** Pruning leaves out only what is not shown, and what a skipped root hides. */
  lemma PruningIsFiltering(disk: Node, s: Set, skip: Option<string -> bool>, v: Visit)
    requires Shown(v, skip)
    ensures Visits(disk, s, Pruned(skip), v) <==> Visits(disk, s, AtRoot(skip), v)
    ensures !Skips(skip, ".") ==> (Visits(disk, s, Pruned(skip), v) <==> Visits(disk, s, NoSkips(), v))
  {
    hide Shown;
    hide Visits;
    forall root: Rel
      ensures InTree(disk, root, v, s.excludes, Pruned(skip)) <==> InTree(disk, root, v, s.excludes, AtRoot(skip))
    {
      hide Excluded;
      hide Lookup;
      hide Pruned;
      hide AtRoot;
      forall k: nat | k < |v.rel| ensures Pruned(skip)(v.rel[..k]) <==> AtRoot(skip)(v.rel[..k]) {
        ShownIsNotPruned(v, skip, k);
      }
    }
    SameVisits(disk, s, Pruned(skip), AtRoot(skip), v);
    if !Skips(skip, ".") {
      forall root: Rel
        ensures InTree(disk, root, v, s.excludes, AtRoot(skip)) <==> InTree(disk, root, v, s.excludes, NoSkips())
      {
        hide Excluded;
        hide Lookup;
      }
      SameVisits(disk, s, AtRoot(skip), NoSkips(), v);
    }
  }

  /** Stopping at the root only leaves visits out. */
  lemma StoppingVisitsLess(disk: Node, s: Set, skip: Option<string -> bool>, v: Visit)
    requires Visits(disk, s, AtRoot(skip), v)
    ensures Visits(disk, s, NoSkips(), v)
  {
    hide Lookup;
    hide Excluded;
    hide Covers;
    hide Cut;
    hide ByListing;
    var input :| input in s.inputs && InInput(disk, s, input, AtRoot(skip), v);
    assert InInput(disk, s, input, NoSkips(), v);
  }

  lemma SameVisits(disk: Node, s: Set, skips: Rel -> bool, others: Rel -> bool, v: Visit)
    requires forall root: Rel :: InTree(disk, root, v, s.excludes, skips) <==> InTree(disk, root, v, s.excludes, others)
    ensures Visits(disk, s, skips, v) <==> Visits(disk, s, others, v)
  {
    hide InTree;
    hide Excluded;
    hide Covers;
    hide Cut;
    hide ByListing;
    forall input ensures InInput(disk, s, input, skips, v) <==> InInput(disk, s, input, others, v) {
    }
  }

  /** keyedSource's file set, for a check without stages or outputs: the same inputs, sorted. */
  predicate SameSet(a: Set, b: Set) {
    multiset(a.inputs) == multiset(b.inputs) && a.excludes == b.excludes && a.listed == b.listed
  }

  lemma SameSetVisits(disk: Node, a: Set, b: Set, skips: Rel -> bool, v: Visit)
    requires SameSet(a, b)
    ensures Visits(disk, a, skips, v) <==> Visits(disk, b, skips, v)
    ensures Fails(disk, a) <==> Fails(disk, b)
  {
    hide InTree;
    hide Excluded;
    hide Cut;
    hide Nested;
    forall input ensures input in a.inputs <==> input in b.inputs {
      assert input in multiset(a.inputs) <==> input in multiset(b.inputs);
    }
    forall input
      ensures InInput(disk, a, input, skips, v) <==> InInput(disk, b, input, skips, v)
      ensures InputFails(disk, a, input) <==> InputFails(disk, b, input)
    {
      assert forall p :: Covers(a, input, p) <==> Covers(b, input, p);
    }
  }

  /** A regular file of the snapshot that is neither private nor below a skipped directory. */
  predicate HashedAndShown(entries: map<Rel, Entry>, skip: Option<string -> bool>, rel: Rel) {
    rel in entries && entries[rel].FileEntry? && !Private(rel) && !SkippedDir(Parent(rel), skip)
  }

  /** A walk that does not go into a skipped root still comes to the path: from another input,
      or from what git lists. */
  ghost predicate PastRoot(disk: Node, s: Set, skip: Option<string -> bool>, rel: Rel) {
    exists seen :: Visits(disk, s, AtRoot(skip), Visit(rel, seen))
  }

  /** What a scanner reads is what its key hashed: the visible files are the regular files of the
      snapshot, less private paths and those below a skipped directory.  It fails only when the
      root's own name, ".", is skipped, and then exactly of the files reached only through the
      root. */
  lemma VisibleAreKeyed(disk: Node, s: Set, keyed: Set, skip: Option<string -> bool>, entries: map<Rel, Entry>, files: set<Rel>)
    requires SameSet(s, keyed) && IsSnapshot(disk, keyed, entries) && IsVisible(disk, s, skip, files)
    ensures forall rel :: rel in files <==> HashedAndShown(entries, skip, rel) && PastRoot(disk, s, skip, rel)
    ensures (forall rel :: rel in files <==> HashedAndShown(entries, skip, rel))
       <==> (Skips(skip, ".") ==> forall rel :: HashedAndShown(entries, skip, rel) ==> PastRoot(disk, s, skip, rel))
  {
    hide Visits;
    hide PastRoot;
    hide HashedAndShown;
    hide IsSnapshot;
    hide IsVisible;
    hide SameSet;
    forall rel
      ensures rel in files <==> HashedAndShown(entries, skip, rel) && PastRoot(disk, s, skip, rel)
      ensures !Skips(skip, ".") && HashedAndShown(entries, skip, rel) ==> PastRoot(disk, s, skip, rel)
    {
      KeyedAt(disk, s, keyed, skip, entries, files, rel);
    }
  }

  lemma KeyedAt(disk: Node, s: Set, keyed: Set, skip: Option<string -> bool>, entries: map<Rel, Entry>, files: set<Rel>, rel: Rel)
    requires SameSet(s, keyed) && IsSnapshot(disk, keyed, entries) && IsVisible(disk, s, skip, files)
    ensures rel in files <==> HashedAndShown(entries, skip, rel) && PastRoot(disk, s, skip, rel)
    ensures !Skips(skip, ".") && HashedAndShown(entries, skip, rel) ==> PastRoot(disk, s, skip, rel)
  {
    hide Visits;
    if rel in files {
      var seen :| Visits(disk, s, Pruned(skip), Visit(rel, seen)) && Shown(Visit(rel, seen), skip);
      PruningIsFiltering(disk, s, skip, Visit(rel, seen));
      StoppingVisitsLess(disk, s, skip, Visit(rel, seen));
      SameSetVisits(disk, s, keyed, NoSkips(), Visit(rel, seen));
      VisitsTellTruth(disk, keyed, NoSkips(), Visit(rel, seen));
    }
    if HashedAndShown(entries, skip, rel) {
      if PastRoot(disk, s, skip, rel) {
        var seen :| Visits(disk, s, AtRoot(skip), Visit(rel, seen));
        VisitsTellTruth(disk, s, AtRoot(skip), Visit(rel, seen));
        PruningIsFiltering(disk, s, skip, Visit(rel, seen));
      }
      var seen :| Visits(disk, keyed, NoSkips(), Visit(rel, seen));
      VisitsTellTruth(disk, keyed, NoSkips(), Visit(rel, seen));
      SameSetVisits(disk, s, keyed, NoSkips(), Visit(rel, seen));
      PruningIsFiltering(disk, s, skip, Visit(rel, seen));
    }
  }

  /** A filesystem walk of the whole source that stops at the root visits nothing else. */
  lemma OnlyTheRoot(disk: Node, s: Set, skip: Option<string -> bool>, v: Visit)
    requires disk.Dir? && s.listed.None? && s.inputs == [[]] && Skips(skip, ".") && Visits(disk, s, Pruned(skip), v)
    ensures v == Visit([], Directory)
  {
    hide Excluded;
    assert InTree(disk, [], v, s.excludes, Pruned(skip));
    assert v.rel[..0] == [] && Pruned(skip)([]);
  }

  /** With the root's name skipped, such a walk shows no file at all. */
  lemma SkippedRootShowsNothing(disk: Node, s: Set, skip: Option<string -> bool>, files: set<Rel>)
    requires disk.Dir? && s.listed.None? && s.inputs == [[]] && Skips(skip, ".") && IsVisible(disk, s, skip, files)
    ensures files == {}
  {
    hide Visits;
    forall v | Visits(disk, s, Pruned(skip), v) ensures !v.seen.Regular? {
      OnlyTheRoot(disk, s, skip, v);
    }
  }
}
