/** What normalizing a message forgets (internal/verify/baseline.go): where, never what. */
module MessageLaws {
  import opened Text
  import opened Messages

  predicate Number(s: string) {
    s != [] && AllDigits(s)
  }

  /** The line, or line and column, of a Go source position. */
  predicate Place(s: string) {
    Number(s) || exists n :: 0 <= n < |s| && s[n] == ':' && Number(s[..n]) && Number(s[n + 1..])
  }

  /** The text does not go on with the number before it, or with a column. */
  predicate Ends(s: string) {
    s == [] || (!IsDigit(s[0]) && !(s[0] == ':' && |s| > 1 && IsDigit(s[1])))
  }

  lemma {:induction false} DigitsOf(s: string, rest: string)
    requires AllDigits(s) && (rest == [] || !IsDigit(rest[0]))
    ensures Digits(s + rest) == |s|
  {
    if s != [] {
      assert (s + rest)[1..] == s[1..] + rest;
      DigitsOf(s[1..], rest);
    } else {
      assert s + rest == rest;
    }
  }

  /** Digits end where a dot begins. */
  lemma {:induction false} DigitsBefore(s: string, rest: string)
    requires rest != [] && rest[0] == '.'
    ensures Digits(s + rest) == Digits(s)
  {
    if s != [] {
      assert (s + rest)[1..] == s[1..] + rest;
      DigitsBefore(s[1..], rest);
    } else {
      assert s + rest == rest;
    }
  }

  lemma LineLength(line: string, rest: string)
    requires Number(line) && Ends(rest)
    ensures AtPosition(POSITION + line + rest) && PositionLength(POSITION + line + rest) == |POSITION + line|
  {
    var s := POSITION + line + rest;
    assert s[4..] == line + rest;
    DigitsOf(line, rest);
    hide Digits;
    if |rest| > 0 && rest[0] == ':' {
      var column := s[4 + |line| + 1..];
      assert column == rest[1..];
      assert Digits(column) == 0;
    }
  }

  lemma ColumnLength(line: string, column: string, rest: string)
    requires Number(line) && Number(column) && (rest == [] || !IsDigit(rest[0]))
    ensures var place := line + ":" + column;
            AtPosition(POSITION + place + rest) && PositionLength(POSITION + place + rest) == |POSITION + place|
  {
    var s := POSITION + (line + ":" + column) + rest;
    assert s[4..] == line + (":" + column + rest);
    DigitsOf(line, ":" + column + rest);
    assert s[4 + |line|] == ':' && s[4 + |line| + 1..] == column + rest;
    DigitsOf(column, rest);
    hide Digits;
  }

  lemma PlaceLength(place: string, rest: string)
    requires Place(place) && Ends(rest)
    ensures AtPosition(POSITION + place + rest) && PositionLength(POSITION + place + rest) == |POSITION + place|
  {
    hide AtPosition;
    hide PositionLength;
    if Number(place) {
      LineLength(place, rest);
    } else {
      var n :| 0 <= n < |place| && place[n] == ':' && Number(place[..n]) && Number(place[n + 1..]);
      assert place == place[..n] + ":" + place[n + 1..];
      ColumnLength(place[..n], place[n + 1..], rest);
    }
  }

  /** A position before a dot is one by itself. */
  lemma PositionBefore(s: string, rest: string)
    requires s != [] && rest != [] && rest[0] == '.'
    ensures AtPosition(s + rest) <==> AtPosition(s)
    ensures AtPosition(s) ==> PositionLength(s + rest) == PositionLength(s)
  {
    if POSITION <= s {
      assert (s + rest)[4..] == s[4..] + rest;
      DigitsBefore(s[4..], rest);
      if AtPosition(s) {
        var line := 4 + Digits(s[4..]);
        if line < |s| {
          assert (s + rest)[line + 1..] == s[line + 1..] + rest;
          DigitsBefore(s[line + 1..], rest);
        }
      }
    } else if |s| < 4 {
      assert (s + rest)[|s|] == '.';
    } else {
      assert forall i :: 0 <= i < 4 ==> (s + rest)[i] == s[i];
    }
  }

  lemma StripOne(s: string)
    requires s != []
    ensures StripPositions(s)
         == if AtPosition(s) then ".go" + StripPositions(s[PositionLength(s)..]) else [s[0]] + StripPositions(s[1..])
  {
  }

  /** What stands before a dot is stripped on its own. */
  lemma {:induction false} StripsBefore(before: string, rest: string)
    requires rest != [] && rest[0] == '.'
    ensures StripPositions(before + rest) == StripPositions(before) + StripPositions(rest)
    decreases |before|
  {
    hide StripPositions;
    hide AtPosition;
    hide PositionLength;
    if before == [] {
      NothingStripped();
      assert before + rest == rest;
    } else {
      PositionBefore(before, rest);
      StripOne(before);
      StripOne(before + rest);
      var n := if AtPosition(before) then PositionLength(before) else 1;
      assert (before + rest)[n..] == before[n..] + rest;
      StripsBefore(before[n..], rest);
    }
  }

  lemma NothingStripped()
    ensures StripPositions([]) == []
  {
  }

  /** Every Go source position in a message is read as its file alone. */
  lemma PositionIsDropped(before: string, place: string, rest: string)
    requires Place(place) && Ends(rest)
    ensures StripPositions(before + POSITION + place + rest) == StripPositions(before) + ".go" + StripPositions(rest)
  {
    var s := POSITION + place + rest;
    hide StripPositions;
    assert before + POSITION + place + rest == before + s;
    StripsBefore(before, s);
    PlaceLength(place, rest);
    assert s[|POSITION + place|..] == rest;
    StripOne(s);
  }

  /** A message that mentions another line, or column, of a file still matches. */
  lemma MovedLineMatches(before: string, place: string, moved: string, rest: string)
    requires Place(place) && Place(moved) && Ends(rest)
    ensures Normalize(before + ".go:" + place + rest) == Normalize(before + ".go:" + moved + rest)
  {
    hide StripPositions;
    hide Collapse;
    PositionIsDropped(before, place, rest);
    PositionIsDropped(before, moved, rest);
  }

  // ---- White space ----

  predicate Blank(s: string) {
    forall i :: 0 <= i < |s| ==> IsSpace(s[i])
  }

  lemma {:induction false} BlankIsSkipped(blank: string, s: string)
    requires Blank(blank)
    ensures Fields(blank + s) == Fields(s)
  {
    if blank != [] {
      assert (blank + s)[1..] == blank[1..] + s;
      BlankIsSkipped(blank[1..], s);
    } else {
      assert blank + s == s;
    }
  }

  /** Words are kept apart by white space, however much: a message spread over lines matches. */
  lemma {:induction false} SpacingIsForgotten(words: seq<string>, blanks: seq<string>)
    requires Words(words) && |blanks| == |words|
    requires forall i :: 0 <= i < |blanks| ==> Blank(blanks[i]) && blanks[i] != []
    ensures Collapse(Spread(words, blanks)) == Joined(words)
  {
    SpreadHasWords(words, blanks);
  }

  /** Each word followed by its white space. */
  function Spread(words: seq<string>, blanks: seq<string>): string
    requires |blanks| == |words|
  {
    if words == [] then [] else words[0] + (blanks[0] + Spread(words[1..], blanks[1..]))
  }

  lemma {:induction false} SpreadHasWords(words: seq<string>, blanks: seq<string>)
    requires Words(words) && |blanks| == |words|
    requires forall i :: 0 <= i < |blanks| ==> Blank(blanks[i]) && blanks[i] != []
    ensures Fields(Spread(words, blanks)) == words
  {
    if words != [] {
      var rest := Spread(words[1..], blanks[1..]);
      SpreadHasWords(words[1..], blanks[1..]);
      FieldsWord(words[0], blanks[0] + rest);
      BlankIsSkipped(blanks[0], rest);
      BlankIsSkipped(blanks[0][1..], rest);
      assert (blanks[0] + rest)[1..] == blanks[0][1..] + rest;
    }
  }
}
