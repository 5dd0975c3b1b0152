/**
  normalizeMessage (internal/verify/baseline.go): a message without Go source positions, its
  white space collapsed, which is what a baseline matches on.
 */
module Messages {
  // The regular expression is written out as the longest position that begins at a character,
  // replaced leftmost first.

  import opened Text

  /** How many digits s begins with. */
  function Digits(s: string): (n: nat)
    ensures n <= |s|
    ensures n > 0 <==> s != [] && IsDigit(s[0])
  {
    if s == [] || !IsDigit(s[0]) then 0 else 1 + Digits(s[1..])
  }

  const POSITION := ".go:"

  /** Whether s begins with a Go source position. */
  predicate AtPosition(s: string) {
    POSITION <= s && Digits(s[|POSITION|..]) > 0
  }

  /** How long the position s begins with is, the longest \.go:\d+(:\d+)? that fits. */
  function PositionLength(s: string): (n: nat)
    requires AtPosition(s)
    ensures |POSITION| < n <= |s|
  {
    var line := |POSITION| + Digits(s[|POSITION|..]);
    if line < |s| && s[line] == ':' then
      var column := Digits(s[line + 1..]);
      if column > 0 then line + 1 + column else line
    else line
  }

  /** Every position, leftmost first, becomes ".go". */
  function StripPositions(s: string): (r: string)
    ensures |r| <= |s|
    decreases |s|
  {
    if s == [] then []
    else if AtPosition(s) then ".go" + StripPositions(s[PositionLength(s)..])
    else [s[0]] + StripPositions(s[1..])
  }

  /** strings.Join with spaces. */
  function Joined(words: seq<string>): string {
    if words == [] then []
    else if |words| == 1 then words[0]
    else words[0] + " " + Joined(words[1..])
  }

  function Collapse(s: string): string {
    Joined(Fields(s))
  }

  function Normalize(message: string): string {
    Collapse(StripPositions(message))
  }

  /** Some position is left in the text. */
  predicate HasPosition(s: string) {
    exists i :: 0 <= i < |s| && AtPosition(s[i..])
  }

  // ---- Collapsing ----

  predicate Words(words: seq<string>) {
    forall i :: 0 <= i < |words| ==> words[i] != [] && Spaceless(words[i])
  }

  lemma {:induction false} FieldsAreWords(s: string)
    ensures Words(Fields(s))
    decreases |s|
  {
    if s != [] {
      if IsSpace(s[0]) {
        FieldsAreWords(s[1..]);
      } else {
        FieldsAreWords(s[WordLength(s)..]);
      }
    }
  }

  lemma {:induction false} FieldsJoined(words: seq<string>)
    requires Words(words)
    ensures Fields(Joined(words)) == words
  {
    if words != [] {
      FieldsJoined(words[1..]);
      var rest := if |words| == 1 then [] else " " + Joined(words[1..]);
      assert Joined(words) == words[0] + rest;
      FieldsWord(words[0], rest);
      if |words| > 1 {
        assert rest[1..] == Joined(words[1..]);
      }
    }
  }

  /** Collapsing twice is collapsing once. */
  lemma CollapseCollapsed(s: string)
    ensures Collapse(Collapse(s)) == Collapse(s)
  {
    FieldsAreWords(s);
    FieldsJoined(Fields(s));
  }

  lemma {:induction false} CollapseShrinks(s: string)
    ensures |Collapse(s)| <= |s|
    decreases |s|
  {
    if s != [] {
      if IsSpace(s[0]) {
        CollapseShrinks(s[1..]);
      } else {
        CollapseAfterWord(s);
      }
    }
  }

  lemma {:induction false} CollapseAfterWord(s: string)
    requires s != [] && !IsSpace(s[0])
    ensures |Collapse(s)| <= |s|
    decreases |s|, 0
  {
    var n := WordLength(s);
    var rest := s[n..];
    var words := Fields(rest);
    assert ([s[..n]] + words)[1..] == words;
    if words != [] {
      assert Fields(rest) == Fields(rest[1..]);
      CollapseShrinks(rest[1..]);
    }
  }

  // ---- Positions ----

  lemma {:induction false} StripKeeps(s: string)
    requires !HasPosition(s)
    ensures StripPositions(s) == s
  {
    if s != [] {
      assert s[0..] == s;
      forall i | 0 <= i < |s[1..]| ensures !AtPosition(s[1..][i..]) {
        assert s[1..][i..] == s[i + 1..];
      }
      StripKeeps(s[1..]);
    }
  }

  lemma {:induction false} StripShortens(s: string)
    requires HasPosition(s)
    ensures |StripPositions(s)| < |s|
  {
    if !AtPosition(s) {
      var i :| 0 <= i < |s| && AtPosition(s[i..]);
      assert s[0..] == s;
      assert s[1..][i - 1..] == s[i..];
      StripShortens(s[1..]);
    }
  }

  /** A message is stable under a second normalizing exactly when no position was left by the
      first; an unstable one gets shorter. */
  lemma StableExactlyWhen(message: string)
    ensures Normalize(Normalize(message)) == Normalize(message) <==> !HasPosition(Normalize(message))
    ensures Normalize(Normalize(message)) != Normalize(message) ==> |Normalize(Normalize(message))| < |Normalize(message)|
  {
    var once := Normalize(message);
    if HasPosition(once) {
      StripShortens(once);
      CollapseShrinks(StripPositions(once));
    } else {
      StripKeeps(once);
      CollapseCollapsed(StripPositions(message));
    }
  }

  // ---- Positions in one word ----

  lemma OneWord(word: string)
    requires word != [] && Spaceless(word)
    ensures Collapse(word) == word
  {
    assert word + [] == word;
    FieldsWord(word, []);
  }

  lemma {:induction false} StripsNone(s: string)
    requires '.' !in s
    ensures StripPositions(s) == s
  {
    if s != [] {
      assert !AtPosition(s) by {
        assert s[0] in s;
      }
      StripsNone(s[1..]);
    }
  }

  /** A prefix without a dot is kept. */
  lemma {:induction false} StripsAfter(before: string, s: string)
    requires '.' !in before
    ensures StripPositions(before + s) == before + StripPositions(s)
  {
    if before == [] {
      assert before + s == s;
    } else {
      assert (before + s)[0] == before[0] && before[0] in before;
      assert (before + s)[1..] == before[1..] + s;
      StripsAfter(before[1..], s);
      hide AtPosition;
      assert [before[0]] + (before[1..] + StripPositions(s)) == before + StripPositions(s);
    }
  }

  lemma OneDigit(digit: char, rest: string)
    requires IsDigit(digit) && (rest == [] || !IsDigit(rest[0]))
    ensures Digits([digit] + rest) == 1
  {
    assert ([digit] + rest)[1..] == rest;
  }

  lemma TwoNumbers(rest: string)
    requires rest == [] || !IsDigit(rest[0])
    ensures AtPosition(".go:1:2" + rest) && PositionLength(".go:1:2" + rest) == 7
  {
    var s := ".go:1:2" + rest;
    assert s[4..] == ['1'] + (":2" + rest);
    OneDigit('1', ":2" + rest);
    assert s[6..] == ['2'] + rest;
    OneDigit('2', rest);
  }

  lemma StripsTwo(before: string, rest: string)
    requires '.' !in before && '.' !in rest && (rest == [] || !IsDigit(rest[0]))
    ensures StripPositions(before + ".go:1:2" + rest) == before + ".go" + rest
  {
    hide Digits;
    hide AtPosition;
    hide PositionLength;
    var s := ".go:1:2" + rest;
    assert before + ".go:1:2" + rest == before + s;
    StripsAfter(before, s);
    TwoNumbers(rest);
    assert s[7..] == rest;
    StripsNone(rest);
    assert before + (".go" + rest) == before + ".go" + rest;
  }

  lemma StripsOne(before: string)
    requires '.' !in before
    ensures StripPositions(before + ".go:3") == before + ".go"
  {
    var s := ".go:3";
    StripsAfter(before, s);
    assert s[4..] == "3" && s[4..][1..] == [];
    assert Digits(s[4..]) == 1;
    assert s[5..] == [];
  }
}
