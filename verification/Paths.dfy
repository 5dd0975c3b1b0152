/**
  Repository-relative paths (internal/verify/enumerate.go, files.go, source.go) as lists of
  components, and what `under` means for the strings they print as.

  A clean path has no empty component, no "." or ".." and no separator inside one; the root
  itself is the empty list and prints as ".".
 */
module Paths {
  type Rel = seq<string>

  /** A component a clean relative path can have. */
  predicate CleanPart(part: string) {
    part != [] && part != "." && part != ".." && '/' !in part
  }

  predicate Clean(rel: Rel) {
    forall i :: 0 <= i < |rel| ==> CleanPart(rel[i])
  }

  /** filepath.Join. */
  function Path(rel: Rel): string {
    if rel == [] then "."
    else if |rel| == 1 then rel[0]
    else Path(rel[..|rel| - 1]) + "/" + rel[|rel| - 1]
  }

  /** strings.Split at separators. */
  function Parts(s: string): (parts: seq<string>)
    ensures |parts| > 0
  {
    if s == [] then [""]
    else
      var rest := Parts(s[1..]);
      if s[0] == '/' then [""] + rest else [[s[0]] + rest[0]] + rest[1..]
  }

  /** The components of a clean path's string. */
  function Split(path: string): Rel {
    if path == "." then [] else Parts(path)
  }

  /** under, on the paths as strings. */
  predicate Under(path: string, input: string) {
    input == "." || path == input || input + "/" <= path
  }

  lemma {:induction false} PartsJoin(a: string, b: string)
    ensures Parts(a + "/" + b) == Parts(a) + Parts(b)
  {
    var s := a + "/" + b;
    if a == [] {
      assert s[1..] == b;
    } else {
      assert s[1..] == a[1..] + "/" + b;
      PartsJoin(a[1..], b);
    }
  }

  lemma {:induction false} PartsOne(part: string)
    requires '/' !in part
    ensures Parts(part) == [part]
  {
    if part != [] {
      assert part[0] in part;
      PartsOne(part[1..]);
      assert part == [part[0]] + part[1..];
    }
  }

  /** Splitting a joined path gives its components back. */
  lemma {:induction false} PartsOfPath(rel: Rel)
    requires Clean(rel) && rel != []
    ensures Parts(Path(rel)) == rel
    decreases |rel|
  {
    var last := rel[|rel| - 1];
    assert CleanPart(last);
    PartsOne(last);
    if |rel| > 1 {
      PartsOfPath(rel[..|rel| - 1]);
      PartsJoin(Path(rel[..|rel| - 1]), last);
    }
  }

  lemma SplitPath(rel: Rel)
    requires Clean(rel)
    ensures Split(Path(rel)) == rel
  {
    if rel != [] {
      PartsOfPath(rel);
      PartsOne(".");
      assert CleanPart(rel[0]);
    }
  }

  /** Joining one more component. */
  lemma PathGrows(rel: Rel, part: string)
    ensures Path(rel + [part]) == if rel == [] then part else Path(rel) + "/" + part
  {
    assert (rel + [part])[..|rel|] == rel;
  }

  /** A longer path extends its prefix at a separator. */
  lemma {:induction false} PathExtends(rel: Rel, n: nat)
    requires 0 < n < |rel|
    ensures Path(rel[..n]) + "/" <= Path(rel)
    decreases |rel|
  {
    var before, last := rel[..|rel| - 1], rel[|rel| - 1];
    assert rel == before + [last];
    PathGrows(before, last);
    if n < |before| {
      PathExtends(before, n);
      assert before[..n] == rel[..n];
    } else {
      assert before == rel[..n];
    }
  }

  lemma BelowIsPrefix(path: Rel, input: Rel)
    requires Clean(path) && Clean(input) && input != [] && Path(input) + "/" <= Path(path)
    ensures input <= path
  {
    hide Path;
    hide Parts;
    var s, t := Path(input), Path(path);
    PartsOfPath(input);
    SplitPath(path);
    PartsOne(".");
    var rest := t[|s| + 1..];
    assert t == s + "/" + rest;
    PartsJoin(s, rest);
    assert |Parts(t)| > 1;
    assert Parts(t) == path;
    assert path[..|input|] == input;
  }

  lemma PrefixIsUnder(path: Rel, input: Rel)
    requires input <= path
    ensures Under(Path(path), Path(input))
  {
    if 0 < |input| < |path| {
      PathExtends(path, |input|);
      assert path[..|input|] == input;
    } else if |input| == |path| {
      assert input == path;
    }
  }

  /** The strings' `under` is the paths' prefix order: "a/bc" is not under "a/b". */
  lemma UnderIsPrefix(path: Rel, input: Rel)
    requires Clean(path) && Clean(input)
    ensures Under(Path(path), Path(input)) <==> input <= path
  {
    hide Path;
    SplitPath(path);
    SplitPath(input);
    if input <= path {
      PrefixIsUnder(path, input);
    } else if Path(input) + "/" <= Path(path) {
      BelowIsPrefix(path, input);
    }
  }

  /** What is below a path under an input is under it too. */
  lemma UnderExtends(rel: Rel, n: nat, input: string)
    requires n <= |rel| && Under(Path(rel[..n]), input) && (n > 0 || input == ".")
    ensures Under(Path(rel), input)
  {
    if 0 < n < |rel| {
      PathExtends(rel, n);
    } else if n == |rel| {
      assert rel[..n] == rel;
    }
  }
}
