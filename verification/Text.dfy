/**
  The parts of Go's strings, strconv and bufio packages the parsers below lean on: splitting
  and joining lines, cutting around a separator, white space as unicode.IsSpace knows it,
  words as strings.Fields finds them, and decimal numbers within a 64-bit int.  A string is a
  sequence of characters, and none of these looks inside one.
 */
module Text {
  import opened Options

  // ---- Lines ----

  /** strings.Split at newlines: always at least one piece. */
  function Split(s: string): (lines: seq<string>)
    ensures |lines| > 0
  {
    if s == [] then [""]
    else
      var rest := Split(s[1..]);
      if s[0] == '\n' then [""] + rest else [[s[0]] + rest[0]] + rest[1..]
  }

  function Unlines(lines: seq<string>): string {
    if lines == [] then "" else lines[0] + "\n" + Unlines(lines[1..])
  }

  predicate OneLine(s: string) {
    '\n' !in s
  }

  predicate OneLiners(lines: seq<string>) {
    forall i :: 0 <= i < |lines| ==> OneLine(lines[i])
  }

  lemma {:induction false} SplitLine(line: string, rest: string)
    requires OneLine(line)
    ensures Split(line + "\n" + rest) == [line] + Split(rest)
  {
    var s := line + "\n" + rest;
    if line == [] {
      assert s[1..] == rest;
    } else {
      assert s[1..] == line[1..] + "\n" + rest;
      SplitLine(line[1..], rest);
      assert line == [line[0]] + line[1..];
    }
  }

  /** Splitting what was written line by line gives the lines back, and an empty last piece. */
  lemma {:induction false} SplitUnlines(lines: seq<string>)
    requires OneLiners(lines)
    ensures Split(Unlines(lines)) == lines + [""]
  {
    if lines != [] {
      SplitLine(lines[0], Unlines(lines[1..]));
      SplitUnlines(lines[1..]);
    }
  }

  lemma {:induction false} UnlinesAppend(a: seq<string>, b: seq<string>)
    ensures Unlines(a + b) == Unlines(a) + Unlines(b)
  {
    if a == [] {
      assert a + b == b;
    } else {
      assert (a + b)[1..] == a[1..] + b;
      UnlinesAppend(a[1..], b);
    }
  }

  /** bufio.ScanLines: no empty last line, and no carriage return at a line's end. */
  function WithoutReturn(line: string): string {
    if |line| > 0 && line[|line| - 1] == '\r' then line[..|line| - 1] else line
  }

  function WithoutReturns(lines: seq<string>): (r: seq<string>)
    ensures |r| == |lines|
  {
    seq(|lines|, i requires 0 <= i < |lines| => WithoutReturn(lines[i]))
  }

  function ScanLines(s: string): seq<string> {
    var lines := Split(s);
    WithoutReturns(if lines[|lines| - 1] == "" then lines[..|lines| - 1] else lines)
  }

  predicate NoReturns(lines: seq<string>) {
    forall i :: 0 <= i < |lines| ==> WithoutReturn(lines[i]) == lines[i]
  }

  lemma ScanUnlines(lines: seq<string>)
    requires OneLiners(lines) && NoReturns(lines)
    ensures ScanLines(Unlines(lines)) == lines
  {
    SplitUnlines(lines);
    assert (lines + [""])[..|lines|] == lines;
  }

  // ---- Prefixes and cuts ----

  function CutPrefix(s: string, prefix: string): Option<string> {
    if prefix <= s then Some(s[|prefix|..]) else None
  }

  function TrimPrefix(s: string, prefix: string): string {
    if prefix <= s then s[|prefix|..] else s
  }

  function TrimSuffix(s: string, suffix: string): string {
    if |suffix| <= |s| && s[|s| - |suffix|..] == suffix then s[..|s| - |suffix|] else s
  }

  /** strings.Cut around the first occurrence of sep. */
  function Cut(s: string, sep: string): Option<(string, string)> {
    if sep <= s then Some(("", s[|sep|..]))
    else if s == [] then None
    else
      match Cut(s[1..], sep)
      case None => None
      case Some((before, after)) => Some(([s[0]] + before, after))
  }

  lemma {:induction false} CutFinds(a: string, sep: string, b: string)
    requires forall i :: 0 <= i < |a| ==> !(sep <= (a + sep + b)[i..])
    ensures Cut(a + sep + b, sep) == Some((a, b))
  {
    var s := a + sep + b;
    if a == [] {
      assert sep <= s && s[|sep|..] == b;
    } else {
      assert s[0..] == s;
      assert s[1..] == a[1..] + sep + b;
      forall i | 0 <= i < |a[1..]| ensures !(sep <= (a[1..] + sep + b)[i..]) {
        assert (a[1..] + sep + b)[i..] == s[i + 1..];
      }
      CutFinds(a[1..], sep, b);
      assert a == [a[0]] + a[1..];
    }
  }

  /** A separator whose first character does not occur before it is found there. */
  lemma CutAtNewCharacter(a: string, sep: string, b: string)
    requires |sep| > 0 && sep[0] !in a
    ensures Cut(a + sep + b, sep) == Some((a, b))
  {
    forall i | 0 <= i < |a| ensures !(sep <= (a + sep + b)[i..]) {
      assert (a + sep + b)[i..][0] == a[i];
    }
    CutFinds(a, sep, b);
  }

  lemma {:induction false} CutMisses(s: string, sep: string)
    requires |sep| > 0 && sep[0] !in s
    ensures Cut(s, sep) == None
  {
    if s != [] {
      assert !(sep <= s) by {
        assert s[0] in s;
      }
      CutMisses(s[1..], sep);
    }
  }

  // ---- White space ----

  /** unicode.IsSpace. */
  predicate IsSpace(c: char) {
    || c == ' ' || ('\t' <= c <= '\r') || c == '\U{85}' || c == '\U{A0}' || c == '\U{1680}'
    || ('\U{2000}' <= c <= '\U{200A}') || c == '\U{2028}' || c == '\U{2029}' || c == '\U{202F}'
    || c == '\U{205F}' || c == '\U{3000}'
  }

  predicate Spaceless(s: string) {
    forall i :: 0 <= i < |s| ==> !IsSpace(s[i])
  }

  /** The length of the word s begins with. */
  function WordLength(s: string): (n: nat)
    ensures n <= |s| && Spaceless(s[..n])
    ensures n < |s| ==> IsSpace(s[n])
  {
    if s == [] || IsSpace(s[0]) then 0
    else
      var n := WordLength(s[1..]);
      assert s[..n + 1] == [s[0]] + s[1..][..n];
      n + 1
  }

  /** strings.Fields: the words of s, around runs of white space. */
  function Fields(s: string): seq<string>
    decreases |s|
  {
    if s == [] then []
    else if IsSpace(s[0]) then Fields(s[1..])
    else [s[..WordLength(s)]] + Fields(s[WordLength(s)..])
  }

  lemma WordEnds(word: string, rest: string)
    requires Spaceless(word) && (rest == [] || IsSpace(rest[0]))
    ensures WordLength(word + rest) == |word|
  {
    var s := word + rest;
    assert forall i :: 0 <= i < |word| ==> s[i] == word[i];
    assert |word| < |s| ==> s[|word|] == rest[0];
    assert forall i :: 0 <= i < WordLength(s) ==> s[..WordLength(s)][i] == s[i];
  }

  lemma FieldsWord(word: string, rest: string)
    requires word != [] && Spaceless(word) && (rest == [] || IsSpace(rest[0]))
    ensures Fields(word + rest) == [word] + Fields(rest)
  {
    WordEnds(word, rest);
    var s := word + rest;
    assert s[0] == word[0] && s[..|word|] == word && s[|word|..] == rest;
  }

  lemma FieldsAfterSpace(s: string)
    ensures Fields(" " + s) == Fields(s)
  {
    assert (" " + s)[1..] == s;
  }

  /** strings.TrimSpace. */
  function TrimSpace(s: string): string
    decreases |s|
  {
    if s == [] then s
    else if IsSpace(s[0]) then TrimSpace(s[1..])
    else if IsSpace(s[|s| - 1]) then TrimSpace(s[..|s| - 1])
    else s
  }

  // ---- Decimal numbers ----

  /** The largest int of a 64-bit platform. */
  const MAX_INT: int := 0x7fff_ffff_ffff_ffff

  predicate IsDigit(c: char) {
    '0' <= c <= '9'
  }

  predicate AllDigits(s: string) {
    forall i :: 0 <= i < |s| ==> IsDigit(s[i])
  }

  function Itoa(n: nat): (s: string)
    ensures |s| > 0 && AllDigits(s)
  {
    if n < 10 then [('0' as int + n) as char]
    else Itoa(n / 10) + [('0' as int + n % 10) as char]
  }

  function DigitsValue(s: string): nat
    requires AllDigits(s)
  {
    if s == [] then 0
    else 10 * DigitsValue(s[..|s| - 1]) + (s[|s| - 1] as int - '0' as int)
  }

  /** strconv.Atoi: an optional sign, then digits, of a value an int holds. */
  function Atoi(s: string): Option<int> {
    var negative := |s| > 0 && s[0] == '-';
    var digits := if |s| > 0 && (s[0] == '-' || s[0] == '+') then s[1..] else s;
    if digits == [] || !AllDigits(digits) then None
    else
      var n: int := DigitsValue(digits);
      if negative then (if n <= MAX_INT + 1 then Some(-n) else None)
      else if n <= MAX_INT then Some(n) else None
  }

  lemma {:induction false} ItoaValue(n: nat)
    ensures DigitsValue(Itoa(n)) == n
  {
    if n >= 10 {
      ItoaValue(n / 10);
      var s := Itoa(n);
      assert s[..|s| - 1] == Itoa(n / 10);
    }
  }

  /** A printed count parses back. */
  lemma AtoiItoa(n: nat)
    requires n <= MAX_INT
    ensures Atoi(Itoa(n)) == Some(n)
  {
    ItoaValue(n);
    assert IsDigit(Itoa(n)[0]);
  }
}
