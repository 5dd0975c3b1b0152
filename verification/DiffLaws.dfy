/** What the two diff readers answer (gitchange.go, gitdiff.go), over the lines git printed. */
module DiffLaws {
  import opened Options
  import opened Text
  import opened GitDiff
  import opened DiffParser
  import opened LineRanges

  // ---- changedLines ----

  /** The last file of the diff that survives, with text, under this path. */
  ghost predicate IsLastOf(files: seq<FileText>, k: nat, path: string) {
    && k < |files| && files[k].NewPath() == Some(path)
    && forall j :: k < j < |files| ==> files[j].NewPath() != Some(path)
  }

  /** The hunk's header says the line is one it wrote. */
  predicate Writes(h: HunkText, line: int) {
    h.after.start <= line < h.after.start + h.after.count
  }

  lemma {:induction false} NewRangesWrite(hunks: seq<HunkText>, line: int)
    ensures OnSome(NewRanges(hunks), line) <==> exists h :: h in hunks && Writes(h, line)
  {
    if hunks != [] {
      NewRangesWrite(hunks[1..], line);
      var first := if hunks[0].after.count > 0
                   then [Range(hunks[0].after.start, hunks[0].after.start + hunks[0].after.count - 1)] else [];
      OnEither(first, NewRanges(hunks[1..]), line);
      assert forall h :: h in hunks <==> h == hunks[0] || h in hunks[1..];
      assert OnSome(first, line) <==> Writes(hunks[0], line);
    }
  }

  lemma OnEither(a: seq<Range>, b: seq<Range>, line: int)
    ensures OnSome(a + b, line) <==> OnSome(a, line) || OnSome(b, line)
  {
    assert forall i :: 0 <= i < |a| ==> (a + b)[i] == a[i];
    assert forall i :: 0 <= i < |b| ==> (a + b)[|a| + i] == b[i];
  }

  lemma {:induction false} ChangedHasPaths(files: seq<FileText>, lines: map<string, seq<Range>>, path: string)
    ensures path in Changed(files, lines) <==> path in lines || exists k :: 0 <= k < |files| && files[k].NewPath() == Some(path)
    decreases |files|
  {
    hide FileText.NewPath;
    hide NewRanges;
    if files != [] {
      var rest := files[1..];
      ChangedHasPaths(rest, WithFile(files[0], lines), path);
      assert forall k :: 0 <= k < |rest| ==> rest[k] == files[k + 1];
      assert forall k :: 0 < k < |files| ==> files[k] == rest[k - 1];
    }
  }

  /** changedLines has exactly the surviving text files, and for each exactly the lines its last
      hunks say they wrote. */
  lemma LinesExactlyWhen(files: seq<FileText>, path: string, k: nat, line: int)
    requires ValidDiff(files) && OneLiners(DiffLines(files))
    ensures path in ReadAll(Print(files)) <==> exists i :: 0 <= i < |files| && files[i].NewPath() == Some(path)
    ensures IsLastOf(files, k, path) ==>
              path in ReadAll(Print(files))
              && (OnSome(ReadAll(Print(files))[path], line) <==> exists h :: h in files[k].hunks && Writes(h, line))
  {
    hide ReadAll;
    hide Print;
    hide DiffLines;
    hide ValidDiff;
    hide Changed;
    hide NewRanges;
    hide Writes;
    hide OnSome;
    hide HeaderName;
    ChangedLinesReadsDiffs(files);
    ChangedHasPaths(files, map[], path);
    if IsLastOf(files, k, path) {
      ChangedHolds(files, map[], k);
      NewRangesWrite(files[k].hunks, line);
    }
  }

  // ---- parseDiff ----

  predicate SaysMode(line: string) {
    "new file mode" <= line || "deleted file mode" <= line
  }

  ghost predicate LastMode(meta: seq<string>, i: nat) {
    i < |meta| && SaysMode(meta[i]) && forall j :: i < j < |meta| ==> !SaysMode(meta[j])
  }

  /** The file's status, as the last extended header line about its mode says. */
  ghost predicate SaysStatus(meta: seq<string>, status: Status) {
    && (forall i: nat :: LastMode(meta, i) ==> status == if "new file mode" <= meta[i] then Added else Deleted)
    && ((forall i: nat :: !LastMode(meta, i)) ==> status == Modified)
  }

  lemma {:induction false} StatusIsLast(meta: seq<string>, status: Status)
    ensures SaysStatus(meta, status) <==> status == StatusOf(meta)
    decreases |meta|
  {
    if meta != [] {
      var before, last := meta[..|meta| - 1], meta[|meta| - 1];
      if SaysMode(last) {
        assert LastMode(meta, |meta| - 1);
      } else {
        StatusIsLast(before, status);
        hide SaysMode;
        forall i: nat ensures LastMode(meta, i) <==> LastMode(before, i) {
          LastModeShrinks(meta, i);
        }
      }
    }
  }

  lemma LastModeShrinks(meta: seq<string>, i: nat)
    requires meta != [] && !SaysMode(meta[|meta| - 1])
    ensures LastMode(meta, i) <==> LastMode(meta[..|meta| - 1], i)
  {
    hide SaysMode;
    var before := meta[..|meta| - 1];
    assert forall j :: 0 <= j < |before| ==> before[j] == meta[j];
  }

  /** How many lines of a hunk begin with the sign. */
  function Signed(body: seq<string>, sign: char): nat
    decreases |body|
  {
    if body == [] then 0 else Signed(body[..|body| - 1], sign) + if [sign] <= body[|body| - 1] then 1 else 0
  }

  /** A zero-context hunk, as git prints it: as many lines of each sign as its header counts. */
  predicate CountsItsLines(h: HunkText) {
    h.before.count == Signed(h.body, '-') && h.after.count == Signed(h.body, '+')
  }

  lemma {:induction false} BodyIsCounted(body: seq<string>)
    ensures |AddedLines(body)| == Signed(body, '+') && RemovedCount(body) == Signed(body, '-')
    decreases |body|
  {
    if body != [] {
      BodyIsCounted(body[..|body| - 1]);
    }
  }

  /** The n-th added line of a body, without its sign. */
  lemma {:induction false} AddedInOrder(body: seq<string>, n: nat)
    requires n < |body| && "+" <= body[n]
    ensures Signed(body[..n], '+') < |AddedLines(body)| && AddedLines(body)[Signed(body[..n], '+')] == body[n][1..]
    decreases |body|
  {
    var before := body[..|body| - 1];
    BodyIsCounted(before);
    if n < |before| {
      AddedInOrder(before, n);
      assert before[..n] == body[..n];
    }
  }

  function LinesBefore(hunks: seq<HunkText>): nat {
    if hunks == [] then 0 else hunks[0].before.count + LinesBefore(hunks[1..])
  }

  function LinesAfter(hunks: seq<HunkText>): nat {
    if hunks == [] then 0 else hunks[0].after.count + LinesAfter(hunks[1..])
  }

  lemma {:induction false} TotalsAreCounted(hunks: seq<HunkText>)
    requires forall h :: h in hunks ==> CountsItsLines(h)
    ensures TotalAdded(hunks) == LinesAfter(hunks) && TotalRemoved(hunks) == LinesBefore(hunks)
  {
    if hunks != [] {
      assert hunks[0] in hunks;
      TotalsAreCounted(hunks[1..]);
      BodyIsCounted(hunks[0].body);
    }
  }

  /** The change says of a file what git printed of it, hunk by hunk. */
  ghost predicate Says(f: FileText, c: FileChange)
    requires f.Hunked?
  {
    && c.path == f.Path() && SaysStatus(f.meta, c.status) && |c.hunks| == |f.hunks|
    && forall i :: 0 <= i < |f.hunks| ==> SaysHunk(f.hunks[i], c.hunks[i])
  }

  predicate SaysHunk(h: HunkText, k: Hunk) {
    && k.oldStart == h.before.start && k.oldLines == h.before.count && k.newStart == h.after.start && k.newLines == h.after.count
    && k.header == TrimSpace(h.section) && |k.added| == Signed(h.body, '+')
    && forall n :: 0 <= n < |h.body| && "+" <= h.body[n] ==> AddsLine(h.body, n, k.added)
  }

  /** The n-th line of the body is kept in its place among the added ones. */
  predicate AddsLine(body: seq<string>, n: nat, added: seq<string>)
    requires n < |body| && "+" <= body[n]
  {
    Signed(body[..n], '+') < |added| && added[Signed(body[..n], '+')] == body[n][1..]
  }

  /** parseDiff's changes are of the files with text it wants, but for those that have neither hunks
      nor were deleted. */
  ghost predicate IsWanted(f: FileText, wanted: string -> bool) {
    f.Hunked? && wanted(f.Path()) && (f.hunks != [] || SaysStatus(f.meta, Deleted))
  }

  lemma HunkIsSaid(h: HunkText)
    ensures SaysHunk(h, HunkOf(h))
  {
    hide TrimSpace;
    hide KeptText;
    BodyIsCounted(h.body);
    forall n | 0 <= n < |h.body| && "+" <= h.body[n] ensures AddsLine(h.body, n, AddedLines(h.body)) {
      AddedInOrder(h.body, n);
    }
  }

  lemma {:induction false} HunksAreSaid(hunks: seq<HunkText>)
    ensures |HunksOf(hunks)| == |hunks| && forall i :: 0 <= i < |hunks| ==> SaysHunk(hunks[i], HunksOf(hunks)[i])
  {
    hide HunkOf;
    hide SaysHunk;
    if hunks != [] {
      HunkIsSaid(hunks[0]);
      HunksAreSaid(hunks[1..]);
    }
  }

  /** The wanted files, in order. */
  ghost function Wanted(files: seq<FileText>, wanted: string -> bool): seq<FileText> {
    if files == [] then [] else (if IsWanted(files[0], wanted) then [files[0]] else []) + Wanted(files[1..], wanted)
  }

  lemma {:induction false} ChangesAreSaid(files: seq<FileText>, wanted: string -> bool)
    ensures |ChangesOf(files, wanted)| == |Wanted(files, wanted)|
    ensures forall n :: 0 <= n < |Wanted(files, wanted)| ==> Tells(Wanted(files, wanted)[n], ChangesOf(files, wanted)[n])
    decreases |files|
  {
    hide SaysStatus;
    hide Tells;
    if files != [] {
      ChangesAreSaid(files[1..], wanted);
      StatusIsLast(files[0].meta, Deleted);
      if files[0].Hunked? {
        ChangeIsSaid(files[0]);
      }
    }
  }

  ghost predicate Tells(f: FileText, c: FileChange) {
    && f.Hunked? && Says(f, c)
    && ((forall h :: h in f.hunks ==> CountsItsLines(h)) ==> c.added == LinesAfter(f.hunks) && c.removed == LinesBefore(f.hunks))
  }

  lemma ChangeIsSaid(f: FileText)
    requires f.Hunked?
    ensures Tells(f, FileChange(f.Path(), StatusOf(f.meta), HunksOf(f.hunks), TotalAdded(f.hunks), TotalRemoved(f.hunks)))
  {
    hide SaysStatus;
    hide SaysHunk;
    hide FileText.Path;
    StatusIsLast(f.meta, StatusOf(f.meta));
    HunksAreSaid(f.hunks);
    if forall h :: h in f.hunks ==> CountsItsLines(h) {
      TotalsAreCounted(f.hunks);
    }
  }

  /** parseDiff's changes are the wanted files in order.  Each says its file's status, its hunks'
      sides, sections and added lines, and counts as many lines added and removed as the hunks'
      headers do. */
  lemma ChangesExactlyWhen(files: seq<FileText>, wanted: string -> bool)
    requires ValidDiff(files) && OneLiners(DiffLines(files)) && NoReturns(DiffLines(files))
    ensures var changes := ParseAll(Print(files), wanted);
            |changes| == |Wanted(files, wanted)|
            && forall n :: 0 <= n < |changes| ==> Tells(Wanted(files, wanted)[n], changes[n])
  {
    hide ParseAll;
    hide Print;
    hide DiffLines;
    hide ValidDiff;
    hide Tells;
    hide Wanted;
    ParseDiffReadsDiffs(files, wanted);
    ChangesAreSaid(files, wanted);
  }
}
