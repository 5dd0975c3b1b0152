/**
  The one enumeration of a check's files (internal/verify/enumerate.go), over a tree of regular
  files and directories, which its two readers share.
 */
module FileSet {
  import opened Options
  import opened Order
  import opened Paths

  datatype Node = File(data: string) | Dir(children: map<string, Node>)

  /** Lstat: nothing there, a file where a directory should be, or what is there. */
  datatype Found = Absent | Blocked | Here(node: Node)

  function Lookup(node: Node, rel: Rel): Found {
    if rel == [] then Here(node)
    else if node.File? then Blocked
    else if rel[0] in node.children then Lookup(node.children[rel[0]], rel[1..])
    else Absent
  }

  /** fileSet, for a kind that reads no Go toolchain; no `listed` walks the filesystem. */
  datatype Set = Set(inputs: seq<Rel>, excludes: seq<string>, listed: Option<seq<string>>)

  /** What a visitor is told of a path. */
  datatype Seen = Missing | Regular(data: string) | Directory

  datatype Visit = Visit(rel: Rel, seen: Seen)

  function SeenOf(node: Node): Seen {
    if node.File? then Regular(node.data) else Directory
  }

  /** filepath.Base. */
  function Name(rel: Rel): string {
    if rel == [] then "." else rel[|rel| - 1]
  }

  predicate Excluded(rel: Rel, excludes: seq<string>) {
    Name(rel) == ".git" || exists p :: p in excludes && Under(Path(rel), p)
  }

  /** walkTree: fs.WalkDir with a visitor that answers SkipDir for the directories of `skips`. */
  function WalkTree(node: Node, rel: Rel, excludes: seq<string>, skips: Rel -> bool): seq<Visit>
    decreases node, 1, 0
  {
    if Excluded(rel, excludes) then []
    else if node.File? then [Visit(rel, Regular(node.data))]
    else
      [Visit(rel, Directory)] + if skips(rel) then [] else WalkChildren(node, Ascending(node.children.Keys), rel, excludes, skips)
  }

  function WalkChildren(node: Node, names: seq<string>, rel: Rel, excludes: seq<string>, skips: Rel -> bool): seq<Visit>
    requires node.Dir? && forall i :: 0 <= i < |names| ==> names[i] in node.children
    decreases node, 0, |names|
  {
    if names == [] then []
    else
      WalkTree(node.children[names[0]], rel + [names[0]], excludes, skips)
      + WalkChildren(node, names[1..], rel, excludes, skips)
  }

  /** What a walk of the tree below `root` visits: whatever is there, unless something on the way
      to it is excluded or skipped. */
  ghost predicate InTree(disk: Node, root: Rel, v: Visit, excludes: seq<string>, skips: Rel -> bool) {
    && root <= v.rel && Lookup(disk, v.rel).Here? && v.seen == SeenOf(Lookup(disk, v.rel).node)
    && (forall k :: |root| <= k <= |v.rel| ==> !Excluded(v.rel[..k], excludes))
    && (forall k :: |root| <= k < |v.rel| ==> !skips(v.rel[..k]))
  }

  /** Stopping at excluded directories leaves out exactly the paths some exclude covers and those
      at or below a .git. */
  lemma ExcludingIsFiltering(root: Rel, rel: Rel, excludes: seq<string>)
    requires root <= rel
    ensures (forall k :: |root| <= k <= |rel| ==> !Excluded(rel[..k], excludes))
       <==> && (forall p :: p in excludes ==> !Under(Path(rel), p))
            && (forall k :: |root| <= k <= |rel| ==> Name(rel[..k]) != ".git")
  {
    hide Path;
    assert rel[..|rel|] == rel;
    forall k, p | |root| <= k <= |rel| && p in excludes && Under(Path(rel[..k]), p) ensures Under(Path(rel), p) {
      if k == 0 {
        NothingAboveRoot(p);
      }
      UnderExtends(rel, k, p);
    }
  }

  lemma NothingAboveRoot(input: string)
    requires Under(Path([]), input)
    ensures input == "."
  {
    assert (input + "/")[|input|] == '/';
  }

  // ---- Lookup ----

  lemma {:induction false} LookupGrows(disk: Node, rel: Rel, more: Rel)
    requires Lookup(disk, rel).Here?
    ensures Lookup(disk, rel + more) == Lookup(Lookup(disk, rel).node, more)
    decreases |rel|
  {
    if rel == [] {
      assert rel + more == more;
    } else {
      assert (rel + more)[1..] == rel[1..] + more;
      LookupGrows(disk.children[rel[0]], rel[1..], more);
    }
  }

  lemma {:induction false} LookupShrinks(disk: Node, rel: Rel, n: nat)
    requires n <= |rel|
    ensures Lookup(disk, rel).Here? ==> Lookup(disk, rel[..n]).Here?
    ensures Lookup(disk, rel[..n]).Here? && Lookup(disk, rel[..n]).node.File? && n < |rel| ==> Lookup(disk, rel) == Blocked
    ensures Lookup(disk, rel[..n]) == Absent ==> Lookup(disk, rel) == Absent
    decreases n
  {
    if n > 0 && disk.Dir? && rel[0] in disk.children {
      assert rel[..n][1..] == rel[1..][..n - 1];
      LookupShrinks(disk.children[rel[0]], rel[1..], n - 1);
    }
  }

  /** Only a file on the way blocks a lookup. */
  lemma {:induction false} BlockedByFile(disk: Node, rel: Rel)
    requires Lookup(disk, rel) == Blocked
    ensures exists n :: 0 <= n < |rel| && Lookup(disk, rel[..n]).Here? && Lookup(disk, rel[..n]).node.File?
    decreases |rel|
  {
    if disk.File? {
      assert rel[..0] == [];
    } else {
      BlockedByFile(disk.children[rel[0]], rel[1..]);
      var n :| 0 <= n < |rel[1..]| && Lookup(disk.children[rel[0]], rel[1..][..n]).Here? && Lookup(disk.children[rel[0]], rel[1..][..n]).node.File?;
      assert rel[..n + 1][1..] == rel[1..][..n];
    }
  }

  // ---- A tree walk, declaratively ----

  lemma {:induction false} TreeVisits(disk: Node, node: Node, rel: Rel, excludes: seq<string>, skips: Rel -> bool, v: Visit)
    requires Lookup(disk, rel) == Here(node)
    ensures v in WalkTree(node, rel, excludes, skips) <==> InTree(disk, rel, v, excludes, skips)
    decreases node, 2, 0
  {
    hide Excluded;
    if rel <= v.rel {
      assert v.rel[..|rel|] == rel;
    }
    if Excluded(rel, excludes) {
    } else if node.File? {
      FileVisits(disk, node, rel, excludes, skips, v);
    } else {
      DirVisits(disk, node, rel, excludes, skips, v);
    }
  }

  lemma FileVisits(disk: Node, node: Node, rel: Rel, excludes: seq<string>, skips: Rel -> bool, v: Visit)
    requires Lookup(disk, rel) == Here(node) && node.File? && !Excluded(rel, excludes)
    ensures v == Visit(rel, Regular(node.data)) <==> InTree(disk, rel, v, excludes, skips)
  {
    hide Excluded;
    if rel <= v.rel {
      assert v.rel[..|rel|] == rel;
      LookupShrinks(disk, v.rel, |rel|);
      if |rel| == |v.rel| {
        assert v.rel == rel;
      }
    }
  }

  /** Below a directory that is walked, a path is visited from its child's walk. */
  lemma ChildInTree(disk: Node, rel: Rel, name: string, excludes: seq<string>, skips: Rel -> bool, v: Visit)
    requires rel + [name] <= v.rel && !Excluded(rel, excludes) && !skips(rel)
    ensures InTree(disk, rel, v, excludes, skips) <==> InTree(disk, rel + [name], v, excludes, skips)
  {
    hide Excluded;
    assert v.rel[..|rel|] == rel;
  }

  lemma {:induction false} ChildrenVisit(disk: Node, node: Node, names: seq<string>, rel: Rel, excludes: seq<string>,
                                         skips: Rel -> bool, v: Visit)
    requires Lookup(disk, rel) == Here(node) && node.Dir? && forall i :: 0 <= i < |names| ==> names[i] in node.children
    ensures v in WalkChildren(node, names, rel, excludes, skips)
       <==> exists i :: 0 <= i < |names| && InTree(disk, rel + [names[i]], v, excludes, skips)
    decreases node, 0, |names|
  {
    hide InTree;
    if names != [] {
      LookupGrows(disk, rel, [names[0]]);
      TreeVisits(disk, node.children[names[0]], rel + [names[0]], excludes, skips, v);
      ChildrenVisit(disk, node, names[1..], rel, excludes, skips, v);
      assert names == [names[0]] + names[1..];
    }
  }

  lemma DirVisits(disk: Node, node: Node, rel: Rel, excludes: seq<string>, skips: Rel -> bool, v: Visit)
    requires Lookup(disk, rel) == Here(node) && node.Dir? && !Excluded(rel, excludes)
    ensures v in WalkTree(node, rel, excludes, skips) <==> InTree(disk, rel, v, excludes, skips)
    decreases node, 1, 0
  {
    hide Excluded;
    var names := Ascending(node.children.Keys);
    ChildrenVisit(disk, node, names, rel, excludes, skips, v);
    if rel <= v.rel && |rel| < |v.rel| {
      var name := v.rel[|rel|];
      assert v.rel[..|rel|] == rel;
      assert v.rel[..|rel| + 1] == rel + [name];
      if !skips(rel) {
        ChildInTree(disk, rel, name, excludes, skips, v);
        LookupGrows(disk, rel, [name]);
        LookupShrinks(disk, v.rel, |rel| + 1);
        OnlyChild(disk, node, names, rel, excludes, skips, v);
      }
    } else if rel <= v.rel {
      assert v.rel == rel && v.rel[..|rel|] == rel;
    }
  }

  /** A path below a directory is in the tree of one child, the one it goes through. */
  lemma OnlyChild(disk: Node, node: Node, names: seq<string>, rel: Rel, excludes: seq<string>, skips: Rel -> bool, v: Visit)
    requires Lookup(disk, rel) == Here(node) && node.Dir? && Enumerates(names, node.children.Keys)
    requires rel <= v.rel && |rel| < |v.rel|
    ensures (exists i :: 0 <= i < |names| && InTree(disk, rel + [names[i]], v, excludes, skips))
       <==> v.rel[|rel|] in node.children && InTree(disk, rel + [v.rel[|rel|]], v, excludes, skips)
  {
    hide Lookup;
    hide Excluded;
    var name := v.rel[|rel|];
    forall i | 0 <= i < |names| && InTree(disk, rel + [names[i]], v, excludes, skips) ensures names[i] == name {
      assert (rel + [names[i]])[|rel|] == v.rel[|rel|];
    }
    if name in node.children {
      assert name in names;
    }
    assert forall i :: 0 <= i < |names| ==> names[i] in names;
  }
}
