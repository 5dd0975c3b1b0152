/**
  strconv.Quote, with which changedDiff writes a file name, and the part of strconv.Unquote that
  reads what Quote and git write.  A character that prints as itself is kept, a control character
  has a letter, and any other is written in hexadecimal by Quote and, byte by byte, in octal by
  git.  Which characters print as themselves is Unicode's table, here any predicate.
 */
module Quoting {
  import opened Options

  function Power16(width: nat): nat {
    if width == 0 then 1 else 16 * Power16(width - 1)
  }

  function HexDigit(n: nat): char
    requires n < 16
  {
    if n < 10 then ('0' as int + n) as char else ('a' as int + n - 10) as char
  }

  function HexValue(c: char): Option<nat> {
    if '0' <= c <= '9' then Some(c as int - '0' as int)
    else if 'a' <= c <= 'f' then Some(c as int - 'a' as int + 10)
    else if 'A' <= c <= 'F' then Some(c as int - 'A' as int + 10)
    else None
  }

  function Hex(n: nat, width: nat): (s: string)
    ensures |s| == width
  {
    if width == 0 then "" else Hex(n / 16, width - 1) + [HexDigit(n % 16)]
  }

  function UnHex(s: string): Option<nat> {
    if s == [] then Some(0)
    else
      match (UnHex(s[..|s| - 1]), HexValue(s[|s| - 1]))
      case (Some(high), Some(low)) => Some(16 * high + low)
      case _ => None
  }

  lemma {:induction false} UnHexHex(n: nat, width: nat)
    requires n < Power16(width)
    ensures UnHex(Hex(n, width)) == Some(n)
  {
    if width > 0 {
      UnHexHex(n / 16, width - 1);
      var s := Hex(n, width);
      assert s[..|s| - 1] == Hex(n / 16, width - 1);
    }
  }

  /** The letter that escapes a control character, if it has one. */
  function Letter(c: char): Option<char> {
    match c as int
    case 0x07 => Some('a')
    case 0x08 => Some('b')
    case 0x0C => Some('f')
    case 0x0A => Some('n')
    case 0x0D => Some('r')
    case 0x09 => Some('t')
    case 0x0B => Some('v')
    case _ => None
  }

  function Control(letter: char): Option<char> {
    match letter
    case 'a' => Some('\U{07}')
    case 'b' => Some('\U{08}')
    case 'f' => Some('\U{0C}')
    case 'n' => Some('\n')
    case 'r' => Some('\r')
    case 't' => Some('\t')
    case 'v' => Some('\U{0B}')
    case _ => None
  }

  /** How Quote writes one character. */
  function Escape(c: char, printable: char -> bool): string {
    if c == '"' || c == '\\' then ['\\', c]
    else if printable(c) then [c]
    else if Letter(c).Some? then ['\\', Letter(c).value]
    else ['\\', WidthLetter(c)] + Hex(c as int, Width(c))
  }

  /** The digits of a numeric escape, and the letter that announces them. */
  function Width(c: char): nat {
    if c as int < 0x20 || c as int == 0x7f then 2 else if c as int < 0x10000 then 4 else 8
  }

  function WidthLetter(c: char): char {
    if Width(c) == 2 then 'x' else if Width(c) == 4 then 'u' else 'U'
  }

  function QuoteBody(s: string, printable: char -> bool): string {
    if s == [] then "" else Escape(s[0], printable) + QuoteBody(s[1..], printable)
  }

  function Quote(s: string, printable: char -> bool): string {
    "\"" + QuoteBody(s, printable) + "\""
  }

  predicate IsScalar(n: nat) {
    n < 0xD800 || 0xE000 <= n < 0x11_0000
  }

  // ---- Octal escapes, which git writes ----

  predicate IsOctal(c: char) {
    '0' <= c <= '7'
  }

  /** Three octal digits that spell a byte. */
  function OctalByte(s: string): (r: Option<(nat, string)>)
    ensures r.Some? ==> r.value.0 < 0x100 && |r.value.1| < |s|
  {
    if |s| < 3 || !IsOctal(s[0]) || !IsOctal(s[1]) || !IsOctal(s[2]) then None
    else
      var n := 64 * (s[0] as int - '0' as int) + 8 * (s[1] as int - '0' as int) + (s[2] as int - '0' as int);
      if n < 0x100 then Some((n, s[3..])) else None
  }

  /** The low bits of a UTF-8 continuation byte, escaped. */
  function Continuation(s: string): (r: Option<(nat, string)>)
    ensures r.Some? ==> |r.value.1| < |s|
  {
    if s == [] || s[0] != '\\' then None
    else
      match OctalByte(s[1..])
      case Some((b, rest)) => if 0x80 <= b < 0xC0 then Some((b - 0x80, rest)) else None
      case None => None
  }

  /** `more` continuation bytes after the bits read so far. */
  function Continued(bits: nat, s: string, more: nat): (r: Option<(nat, string)>)
    ensures r.Some? ==> |r.value.1| <= |s|
    decreases more
  {
    if more == 0 then Some((bits, s))
    else
      match Continuation(s)
      case Some((low, rest)) => Continued(64 * bits + low, rest, more - 1)
      case None => None
  }

  /** A character whose UTF-8 bytes are escaped in octal, its first backslash already read.
      Bytes that spell no character are not read. */
  function OctalChar(s: string): (r: Option<(char, string)>)
    ensures r.Some? ==> |r.value.1| < |s|
  {
    match OctalByte(s)
    case None => None
    case Some((b, rest)) =>
      if b < 0x80 then Some((b as char, rest))
      else if 0xC0 <= b < 0xE0 then InRange(Continued(b - 0xC0, rest, 1), 0x80)
      else if 0xE0 <= b < 0xF0 then InRange(Continued(b - 0xE0, rest, 2), 0x800)
      else if 0xF0 <= b < 0xF8 then InRange(Continued(b - 0xF0, rest, 3), 0x1_0000)
      else None
  }

  /** A scalar value that needed all of its bytes. */
  function InRange(read: Option<(nat, string)>, least: nat): Option<(char, string)> {
    match read
    case Some((n, rest)) => if least <= n && IsScalar(n) then Some((n as char, rest)) else None
    case None => None
  }

  /** A numeric escape of `width` digits after its letter.  A byte escape \x of 0x80 or more is
      part of an encoding, which only octal escapes spell here. */
  function Numeric(s: string, width: nat): Option<(char, string)> {
    if |s| < width then None
    else
      match UnHex(s[..width])
      case Some(n) => if IsScalar(n) && (width == 2 ==> n < 0x80) then Some((n as char, s[width..])) else None
      case None => None
  }

  /** What follows a backslash: the character it stands for, and the rest. */
  function UnEscape(s: string): Option<(char, string)> {
    if s == [] then None
    else if s[0] == '"' || s[0] == '\\' then Some((s[0], s[1..]))
    else if Control(s[0]).Some? then Some((Control(s[0]).value, s[1..]))
    else if s[0] == 'x' then Numeric(s[1..], 2)
    else if s[0] == 'u' then Numeric(s[1..], 4)
    else if s[0] == 'U' then Numeric(s[1..], 8)
    else OctalChar(s)
  }

  function UnquoteBody(s: string): Option<string>
    decreases |s|
  {
    if s == [] || s[0] == '\n' then None
    else if s[0] == '"' then (if |s| == 1 then Some("") else None)
    else if s[0] != '\\' then
      match UnquoteBody(s[1..])
      case Some(rest) => Some([s[0]] + rest)
      case None => None
    else
      match UnEscape(s[1..])
      case None => None
      case Some((c, tail)) =>
        match UnquoteBody(tail)
        case Some(rest) => Some([c] + rest)
        case None => None
  }

  function Unquote(s: string): Option<string> {
    if s != [] && s[0] == '"' then UnquoteBody(s[1..]) else None
  }

  /** No control character prints as itself. */
  ghost predicate PrintsText(printable: char -> bool) {
    forall c :: printable(c) ==> c as int >= 0x20 && c as int != 0x7f
  }

  lemma WidthFits(c: char)
    ensures c as int < Power16(Width(c))
  {
    assert Power16(2) == 0x100;
    assert Power16(4) == 0x10000 by {
      assert Power16(3) == 0x1000;
    }
    assert Power16(8) == 0x1_0000_0000 by {
      assert Power16(5) == 0x10_0000;
      assert Power16(6) == 0x100_0000;
      assert Power16(7) == 0x1000_0000;
    }
  }

  lemma NumericHex(c: char, rest: string)
    ensures Numeric(Hex(c as int, Width(c)) + rest, Width(c)) == Some((c, rest))
  {
    WidthFits(c);
    UnHexHex(c as int, Width(c));
    assert (Hex(c as int, Width(c)) + rest)[..Width(c)] == Hex(c as int, Width(c));
  }

  /** Reading an escape gives the character back, and leaves what follows. */
  lemma UnEscapeEscape(c: char, printable: char -> bool, rest: string)
    requires c == '"' || c == '\\' || !printable(c)
    ensures Escape(c, printable)[0] == '\\'
    ensures UnEscape(Escape(c, printable)[1..] + rest) == Some((c, rest))
  {
    if c == '"' || c == '\\' || Letter(c).Some? {
      var s := Escape(c, printable)[1..] + rest;
      assert s[1..] == rest;
    } else {
      UnEscapeNumber(c, printable, rest);
    }
  }

  lemma UnEscapeNumber(c: char, printable: char -> bool, rest: string)
    requires c != '"' && c != '\\' && Letter(c).None? && !printable(c)
    ensures Escape(c, printable)[0] == '\\'
    ensures UnEscape(Escape(c, printable)[1..] + rest) == Some((c, rest))
  {
    hide Hex;
    hide Numeric;
    hide OctalChar;
    var s := Escape(c, printable)[1..] + rest;
    var letter, digits := WidthLetter(c), Hex(c as int, Width(c));
    assert s[0] == letter && s[1..] == digits + rest;
    assert Control(letter) == None && letter != '"' && letter != '\\';
    NumericHex(c, rest);
  }

  lemma UnquotePlain(c: char, rest: string, tail: string)
    requires c != '"' && c != '\\' && c != '\n' && UnquoteBody(rest) == Some(tail)
    ensures UnquoteBody([c] + rest) == Some([c] + tail)
  {
    assert ([c] + rest)[1..] == rest;
  }

  lemma UnquoteEscaped(c: char, escape: string, rest: string, tail: string)
    requires |escape| > 0 && escape[0] == '\\' && UnEscape(escape[1..] + rest) == Some((c, rest))
    requires UnquoteBody(rest) == Some(tail)
    ensures UnquoteBody(escape + rest) == Some([c] + tail)
  {
    assert (escape + rest)[1..] == escape[1..] + rest;
  }

  lemma {:induction false} UnquoteQuoteBody(s: string, printable: char -> bool)
    requires PrintsText(printable)
    ensures UnquoteBody(QuoteBody(s, printable) + "\"") == Some(s)
  {
    if s != [] {
      UnquoteQuoteBody(s[1..], printable);
      var c, rest := s[0], QuoteBody(s[1..], printable) + "\"";
      if c == '"' || c == '\\' || !printable(c) {
        UnEscapeEscape(c, printable, rest);
        UnquoteEscaped(c, Escape(c, printable), rest, s[1..]);
      } else {
        UnquotePlain(c, rest, s[1..]);
      }
      assert QuoteBody(s, printable) + "\"" == Escape(c, printable) + rest;
      assert [c] + s[1..] == s;
    }
  }

  /** Quote and Unquote are inverse, for every string. */
  lemma UnquoteQuote(s: string, printable: char -> bool)
    requires PrintsText(printable)
    ensures Unquote(Quote(s, printable)) == Some(s)
  {
    UnquoteQuoteBody(s, printable);
    assert Quote(s, printable)[1..] == QuoteBody(s, printable) + "\"";
  }

  /** A quoted string stays on one line and ends in its quote. */
  lemma {:induction false} QuoteIsOneLine(s: string, printable: char -> bool)
    requires PrintsText(printable)
    ensures '\n' !in QuoteBody(s, printable)
  {
    if s != [] {
      QuoteIsOneLine(s[1..], printable);
      EscapeIsOneLine(s[0], printable);
    }
  }

  lemma {:induction false} HexIsOneLine(n: nat, width: nat)
    ensures '\n' !in Hex(n, width)
  {
    if width > 0 {
      HexIsOneLine(n / 16, width - 1);
    }
  }

  lemma EscapeIsOneLine(c: char, printable: char -> bool)
    requires PrintsText(printable)
    ensures '\n' !in Escape(c, printable)
  {
    HexIsOneLine(c as int, Width(c));
  }

  /** The escapes Go and C share, and the forms of the others. */
  lemma EscapesAreGos(printable: char -> bool)
    requires PrintsText(printable)
    ensures Escape('\n', printable) == "\\n" && Escape('\r', printable) == "\\r" && Escape('\t', printable) == "\\t"
    ensures Escape('"', printable) == "\\\"" && Escape('\\', printable) == "\\\\"
    ensures Escape('\U{07}', printable) == "\\a" && Escape('\U{08}', printable) == "\\b"
    ensures Escape('\U{0C}', printable) == "\\f" && Escape('\U{0B}', printable) == "\\v"
    ensures Escape('\U{7f}', printable) == "\\x7f"
    ensures !printable('\U{feff}') ==> Escape('\U{feff}', printable) == "\\ufeff"
  {
    assert Hex(0x7f, 2) == "7f";
    assert Hex(0xfe, 2) == "fe";
    assert Hex(0xfef, 3) == "fef";
    assert Hex(0xfeff, 4) == "feff";
  }
}
