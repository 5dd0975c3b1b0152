/**
  How git prints a path in a diff header (quote_c_style), and that HeaderName
  (internal/gitchange/gitchange.go) reads every one of them back.

  A path with a quote, a backslash or a control character is quoted C-style whatever the
  configuration; core.quotePath, here `wide`, adds the bytes of other alphabets in octal.  A
  path with a space is followed by a tab.
 */
module GitNames {
  import opened Options
  import opened Text
  import opened Quoting
  import opened GitDiff

  predicate Special(c: char, wide: bool) {
    c == '"' || c == '\\' || c as int < 0x20 || c as int == 0x7f || (wide && c as int >= 0x80)
  }

  /** One byte as a backslash and three octal digits. */
  function ByteEscape(b: nat): (s: string)
    requires b < 0x100
    ensures |s| == 4 && s[0] == '\\'
  {
    "\\" + [OctalDigit(b / 64), OctalDigit(b / 8 % 8), OctalDigit(b % 8)]
  }

  function OctalDigit(n: nat): (c: char)
    requires n < 8
    ensures IsOctal(c) && c as int - '0' as int == n
  {
    ('0' as int + n) as char
  }

  /** The UTF-8 bytes of a character, each escaped. */
  function BytesEscape(n: nat): string
    requires n < 0x11_0000
  {
    if n < 0x80 then ByteEscape(n)
    else if n < 0x800 then ByteEscape(0xC0 + n / 0x40) + ByteEscape(0x80 + n % 0x40)
    else if n < 0x1_0000 then
      ByteEscape(0xE0 + n / 0x40 / 0x40) + ByteEscape(0x80 + n / 0x40 % 0x40) + ByteEscape(0x80 + n % 0x40)
    else
      ByteEscape(0xF0 + n / 0x40 / 0x40 / 0x40) + ByteEscape(0x80 + n / 0x40 / 0x40 % 0x40)
      + ByteEscape(0x80 + n / 0x40 % 0x40) + ByteEscape(0x80 + n % 0x40)
  }

  function GitEscape(c: char, wide: bool): string {
    if !Special(c, wide) then [c]
    else if c == '"' || c == '\\' then ['\\', c]
    else if Letter(c).Some? then ['\\', Letter(c).value]
    else BytesEscape(c as int)
  }

  function GitBody(path: string, wide: bool): string {
    if path == [] then "" else GitEscape(path[0], wide) + GitBody(path[1..], wide)
  }

  predicate NeedsQuotes(path: string, wide: bool) {
    exists i :: 0 <= i < |path| && Special(path[i], wide)
  }

  /** What git prints after "--- " or "+++ ". */
  function GitName(path: string, wide: bool): string {
    (if NeedsQuotes(path, wide) then "\"" + GitBody(path, wide) + "\"" else path) + if ' ' in path then "\t" else ""
  }

  // ---- Escapes read back ----

  lemma ByteReads(b: nat, rest: string)
    requires b < 0x100
    ensures ByteEscape(b)[0] == '\\' && OctalByte(ByteEscape(b)[1..] + rest) == Some((b, rest))
  {
    var s := ByteEscape(b)[1..] + rest;
    assert s[3..] == rest;
    assert b == 64 * (b / 64) + 8 * (b / 8 % 8) + b % 8;
  }

  lemma ContinuationReads(low: nat, rest: string)
    requires low < 0x40
    ensures Continuation(ByteEscape(0x80 + low) + rest) == Some((low, rest))
  {
    ByteReads(0x80 + low, rest);
    assert (ByteEscape(0x80 + low) + rest)[1..] == ByteEscape(0x80 + low)[1..] + rest;
  }

  lemma OneContinued(bits: nat, a: nat, rest: string)
    requires a < 0x40
    ensures Continued(bits, ByteEscape(0x80 + a) + rest, 1) == Some((64 * bits + a, rest))
  {
    ContinuationReads(a, rest);
    assert Continued(64 * bits + a, rest, 0) == Some((64 * bits + a, rest));
  }

  lemma TwoContinued(bits: nat, a: nat, b: nat, rest: string)
    requires a < 0x40 && b < 0x40
    ensures Continued(bits, ByteEscape(0x80 + a) + (ByteEscape(0x80 + b) + rest), 2) == Some((64 * (64 * bits + a) + b, rest))
  {
    hide ByteEscape;
    hide Continuation;
    ContinuationReads(a, ByteEscape(0x80 + b) + rest);
    OneContinued(64 * bits + a, b, rest);
  }

  lemma ThreeContinued(bits: nat, a: nat, b: nat, c: nat, rest: string)
    requires a < 0x40 && b < 0x40 && c < 0x40
    ensures Continued(bits, ByteEscape(0x80 + a) + (ByteEscape(0x80 + b) + (ByteEscape(0x80 + c) + rest)), 3)
         == Some((64 * (64 * (64 * bits + a) + b) + c, rest))
  {
    hide ByteEscape;
    hide Continuation;
    ContinuationReads(a, ByteEscape(0x80 + b) + (ByteEscape(0x80 + c) + rest));
    TwoContinued(64 * bits + a, b, c, rest);
  }

  /** A character spelled by its escaped bytes reads back as itself. */
  lemma BytesRead(c: char, rest: string)
    ensures |BytesEscape(c as int)| > 0 && BytesEscape(c as int)[0] == '\\'
    ensures OctalChar(BytesEscape(c as int)[1..] + rest) == Some((c, rest))
  {
    hide OctalChar;
    hide ByteEscape;
    var n := c as int;
    if n < 0x80 {
      ByteReads(n, rest);
      OneByte(ByteEscape(n)[1..] + rest, c, rest);
    } else if n < 0x800 {
      var a := n % 0x40;
      Lead(0xC0 + n / 0x40, ByteEscape(0x80 + a), rest);
      OneContinued(n / 0x40, a, rest);
      ManyBytes(BytesEscape(n)[1..] + rest, 0xC0, n / 0x40, 1, ByteEscape(0x80 + a) + rest, c, rest);
    } else if n < 0x1_0000 {
      ThreeBytes(c, rest);
    } else {
      FourBytes(c, rest);
    }
  }

  lemma ThreeBytes(c: char, rest: string)
    requires 0x800 <= c as int < 0x1_0000
    ensures |BytesEscape(c as int)| > 0 && BytesEscape(c as int)[0] == '\\'
    ensures OctalChar(BytesEscape(c as int)[1..] + rest) == Some((c, rest))
  {
    hide OctalChar;
    hide ByteEscape;
    var n := c as int;
    var bits, a, b := n / 0x40 / 0x40, n / 0x40 % 0x40, n % 0x40;
    var tail := ByteEscape(0x80 + a) + ByteEscape(0x80 + b);
    Lead(0xE0 + bits, tail, rest);
    assert BytesEscape(n) == ByteEscape(0xE0 + bits) + tail;
    assert tail + rest == ByteEscape(0x80 + a) + (ByteEscape(0x80 + b) + rest);
    TwoContinued(bits, a, b, rest);
    ThreeDigits(n);
    ManyBytes(BytesEscape(n)[1..] + rest, 0xE0, bits, 2, tail + rest, c, rest);
  }

  lemma FourBytes(c: char, rest: string)
    requires 0x1_0000 <= c as int
    ensures |BytesEscape(c as int)| > 0 && BytesEscape(c as int)[0] == '\\'
    ensures OctalChar(BytesEscape(c as int)[1..] + rest) == Some((c, rest))
  {
    hide OctalChar;
    hide ByteEscape;
    var n := c as int;
    var bits, a, b, d := n / 0x40 / 0x40 / 0x40, n / 0x40 / 0x40 % 0x40, n / 0x40 % 0x40, n % 0x40;
    var tail := ByteEscape(0x80 + a) + (ByteEscape(0x80 + b) + ByteEscape(0x80 + d));
    Lead(0xF0 + bits, tail, rest);
    assert BytesEscape(n) == ByteEscape(0xF0 + bits) + tail;
    assert tail + rest == ByteEscape(0x80 + a) + (ByteEscape(0x80 + b) + (ByteEscape(0x80 + d) + rest));
    ThreeContinued(bits, a, b, d, rest);
    FourDigits(n);
    ManyBytes(BytesEscape(n)[1..] + rest, 0xF0, bits, 3, tail + rest, c, rest);
  }

  lemma ThreeDigits(n: nat)
    ensures n == 64 * (64 * (n / 0x40 / 0x40) + n / 0x40 % 0x40) + n % 0x40
  {
    var high := n / 0x40;
    assert high == 64 * (high / 0x40) + high % 0x40;
  }

  lemma FourDigits(n: nat)
    ensures n == 64 * (64 * (64 * (n / 0x40 / 0x40 / 0x40) + n / 0x40 / 0x40 % 0x40) + n / 0x40 % 0x40) + n % 0x40
  {
    ThreeDigits(n / 0x40);
  }

  lemma OneByte(s: string, c: char, rest: string)
    requires c as int < 0x80 && OctalByte(s) == Some((c as int, rest))
    ensures OctalChar(s) == Some((c, rest))
  {
  }

  /** OctalChar after a lead byte, given what its continuation bytes spell. */
  lemma ManyBytes(s: string, lead: nat, bits: nat, more: nat, tail: string, c: char, rest: string)
    requires (lead, more) in {(0xC0, 1), (0xE0, 2), (0xF0, 3)}
    requires bits < if more == 1 then 0x20 else if more == 2 then 0x10 else 8
    requires OctalByte(s) == Some((lead + bits, tail)) && Continued(bits, tail, more) == Some((c as int, rest))
    requires c as int >= if more == 1 then 0x80 else if more == 2 then 0x800 else 0x1_0000
    ensures OctalChar(s) == Some((c, rest))
  {
    hide OctalByte;
    hide Continued;
  }

  lemma Lead(b: nat, tail: string, rest: string)
    requires b < 0x100
    ensures |ByteEscape(b) + tail| > 0 && (ByteEscape(b) + tail)[0] == '\\'
    ensures OctalByte((ByteEscape(b) + tail)[1..] + rest) == Some((b, tail + rest))
  {
    ByteReads(b, tail + rest);
    assert (ByteEscape(b) + tail)[1..] + rest == ByteEscape(b)[1..] + (tail + rest);
  }

  lemma BytesStartOctal(c: char, rest: string)
    ensures var s := BytesEscape(c as int)[1..] + rest;
            s != [] && IsOctal(s[0]) && OctalChar(s) == Some((c, rest))
  {
    BytesRead(c, rest);
  }

  lemma EscapeReads(c: char, wide: bool, rest: string)
    requires Special(c, wide)
    ensures GitEscape(c, wide) != [] && GitEscape(c, wide)[0] == '\\'
    ensures UnEscape(GitEscape(c, wide)[1..] + rest) == Some((c, rest))
  {
    hide OctalChar;
    hide BytesEscape;
    if c == '"' || c == '\\' || Letter(c).Some? {
      var s := GitEscape(c, wide)[1..] + rest;
      assert s[1..] == rest;
    } else {
      BytesRead(c, rest);
      BytesStartOctal(c, rest);
    }
  }

  lemma {:induction false} BodyReads(path: string, wide: bool)
    ensures UnquoteBody(GitBody(path, wide) + "\"") == Some(path)
  {
    hide UnEscape;
    hide GitEscape;
    if path != [] {
      BodyReads(path[1..], wide);
      var c, rest := path[0], GitBody(path[1..], wide) + "\"";
      if Special(c, wide) {
        EscapeReads(c, wide, rest);
        UnquoteEscaped(c, GitEscape(c, wide), rest, path[1..]);
      } else {
        PlainIsItself(c, wide);
        UnquotePlain(c, rest, path[1..]);
      }
      assert GitBody(path, wide) + "\"" == GitEscape(c, wide) + rest;
      assert [c] + path[1..] == path;
    }
  }

  lemma PlainIsItself(c: char, wide: bool)
    requires !Special(c, wide)
    ensures GitEscape(c, wide) == [c]
  {
  }

  /** HeaderName reads back every path git prints, quoted or not, followed by a tab or not,
      with core.quotePath or without. */
  lemma HeaderNameReadsGit(path: string, wide: bool)
    ensures HeaderName(GitName(path, wide)) == path
  {
    hide UnquoteBody;
    hide GitBody;
    var printed := GitName(path, wide);
    var name := if NeedsQuotes(path, wide) then "\"" + GitBody(path, wide) + "\"" else path;
    if !NeedsQuotes(path, wide) {
      assert path != [] ==> !Special(path[0], wide) && !Special(path[|path| - 1], wide);
    } else {
      BodyReads(path, wide);
      assert name[1..] == GitBody(path, wide) + "\"";
      assert name[|name| - 1] == '"';
    }
    TabIsTrimmed(name, ' ' in path);
  }

  lemma TabIsTrimmed(name: string, tab: bool)
    requires name == [] || name[|name| - 1] != '\t'
    ensures TrimSuffix(name + if tab then "\t" else "", "\t") == name
  {
    if tab {
      var s := name + "\t";
      assert s[|s| - 1..] == "\t";
    } else {
      assert name + "" == name;
      if name != [] {
        assert name[|name| - 1..][0] == name[|name| - 1];
      }
    }
  }

  lemma {:induction false} BodyIsOneLine(path: string, wide: bool)
    ensures '\n' !in GitBody(path, wide)
  {
    if path != [] {
      BodyIsOneLine(path[1..], wide);
      EscapeIsOneLine(path[0], wide);
    }
  }

  lemma EscapeIsOneLine(c: char, wide: bool)
    ensures '\n' !in GitEscape(c, wide)
  {
    hide ByteEscape;
    forall b: nat | b < 0x100 ensures '\n' !in ByteEscape(b) {
      ByteIsOneLine(b);
    }
  }

  lemma ByteIsOneLine(b: nat)
    requires b < 0x100
    ensures '\n' !in ByteEscape(b)
  {
  }

  /** What git prints stays on one line. */
  lemma GitNameIsOneLine(path: string, wide: bool)
    ensures OneLine(GitName(path, wide))
  {
    BodyIsOneLine(path, wide);
    if !NeedsQuotes(path, wide) {
      assert forall i :: 0 <= i < |path| ==> !Special(path[i], wide);
    }
  }

  /** A file git prints in a diff, whatever its two names hold: the readers of `GitDiff` and
      `DiffParser` apply to it, and find those names.  A side that is missing is /dev/null. */
  lemma GitFilesAreValid(git: string, meta: seq<string>, before: Option<string>, now: Option<string>, wide: bool, hunks: seq<HunkText>)
    requires before.Some? || now.Some?
    requires (before.Some? ==> before.value != "") && (now.Some? ==> now.value != "")
    requires forall i :: 0 <= i < |meta| ==> IsMeta(meta[i]) && !("Binary files " <= meta[i])
    requires forall i :: 0 <= i < |hunks| ==> hunks[i].Valid()
    ensures var f := GitFile(git, meta, before, now, wide, hunks);
            f.Valid() && f.NewPath() == now && f.Path() == (if now.Some? then now.value else before.value)
  {
    hide HeaderName;
    hide GitName;
    HeaderNameReadsGit("/dev/null", wide);
    SideReads(before, "a/", wide);
    SideReads(now, "b/", wide);
  }

  /** One side's name in the header. */
  function SideName(path: Option<string>, side: string, wide: bool): string {
    if path.Some? then GitName(side + path.value, wide) else "/dev/null"
  }

  function GitFile(git: string, meta: seq<string>, before: Option<string>, now: Option<string>, wide: bool, hunks: seq<HunkText>): FileText {
    Hunked(git, meta, SideName(before, "a/", wide), SideName(now, "b/", wide), hunks)
  }

  lemma SideReads(path: Option<string>, side: string, wide: bool)
    requires side in {"a/", "b/"} && (path.Some? ==> path.value != "")
    ensures HeaderName(SideName(path, side, wide)) == if path.Some? then side + path.value else "/dev/null"
    ensures path.Some? ==> side + path.value != "/dev/null" && |side + path.value| > 2 && TrimPrefix(side + path.value, side) == path.value
  {
    if path.Some? {
      HeaderNameReadsGit(side + path.value, wide);
      assert (side + path.value)[0] == side[0];
    } else {
      DevNullReads();
    }
  }

  lemma DevNullReads()
    ensures HeaderName("/dev/null") == "/dev/null"
  {
    var name := "/dev/null";
    assert name[|name| - 1..] == "l";
  }
}
