/** The inside of a JSON string literal (section 7 of RFC 8259) as the sequence of UTF-16 code units it denotes,
    and the escaping that `json.dumps` applies. Characters are Unicode scalar values. */
module JsonStrings {
  import opened Options

  // ----- UTF-16 -----

  function Utf16Char(c: char): seq<int> {
    var n := c as int;
    if n < 0x10000 then [n] else [0xD800 + (n - 0x10000) / 0x400, 0xDC00 + (n - 0x10000) % 0x400]
  }

  function Utf16(s: string): seq<int> {
    if s == [] then [] else Utf16Char(s[0]) + Utf16(s[1..])
  }

  predicate HighSurrogate(u: int) {
    0xD800 <= u < 0xDC00
  }

  predicate LowSurrogate(u: int) {
    0xDC00 <= u < 0xE000
  }

  /** The text that code units stand for; nothing if a surrogate is unpaired. */
  function Text(units: seq<int>): Option<string> {
    if units == [] then Some([])
    else if HighSurrogate(units[0]) then
      if |units| > 1 && LowSurrogate(units[1]) then
        match Text(units[2..])
        case Some(rest) => Some([(0x10000 + (units[0] - 0xD800) * 0x400 + (units[1] - 0xDC00)) as char] + rest)
        case None => None
      else None
    else if 0 <= units[0] < 0xD800 || 0xE000 <= units[0] < 0x10000 then
      match Text(units[1..])
      case Some(rest) => Some([units[0] as char] + rest)
      case None => None
    else None
  }

  lemma SurrogatePair(c: char)
    requires c as int >= 0x10000
    ensures HighSurrogate(Utf16Char(c)[0]) && LowSurrogate(Utf16Char(c)[1])
    ensures 0x10000 + (Utf16Char(c)[0] - 0xD800) * 0x400 + (Utf16Char(c)[1] - 0xDC00) == c as int
  {
  }

  lemma {:induction false} TextOfUtf16(s: string)
    ensures Text(Utf16(s)) == Some(s)
  {
    if s != [] {
      TextOfUtf16(s[1..]);
      var units := Utf16(s);
      assert [s[0]] + s[1..] == s;
      if s[0] as int < 0x10000 {
        assert units[1..] == Utf16(s[1..]) && units[0] as char == s[0];
      } else {
        assert units[2..] == Utf16(s[1..]);
        SurrogatePair(s[0]);
      }
    }
  }

  lemma {:induction false} Utf16Concat(a: string, b: string)
    ensures Utf16(a + b) == Utf16(a) + Utf16(b)
  {
    if a == [] {
      assert a + b == b;
    } else {
      assert (a + b)[1..] == a[1..] + b;
      Utf16Concat(a[1..], b);
    }
  }

  // ----- reading a literal -----

  function HexValue(c: char): Option<int> {
    if '0' <= c <= '9' then Some(c as int - '0' as int)
    else if 'a' <= c <= 'f' then Some(c as int - 'a' as int + 10)
    else if 'A' <= c <= 'F' then Some(c as int - 'A' as int + 10)
    else None
  }

  function ShortEscape(c: char): Option<int> {
    match c
    case '\"' => Some(0x22)
    case '\\' => Some(0x5C)
    case '/' => Some(0x2F)
    case 'b' => Some(0x08)
    case 'f' => Some(0x0C)
    case 'n' => Some(0x0A)
    case 'r' => Some(0x0D)
    case 't' => Some(0x09)
    case _ => None
  }

  /** One character or escape: its code units and how many characters it takes. */
  datatype Token = Token(units: seq<int>, size: nat)

  function HexToken(s: string): Option<Token>
    requires |s| >= 6
  {
    var (a, b, c, d) := (HexValue(s[2]), HexValue(s[3]), HexValue(s[4]), HexValue(s[5]));
    if a.Some? && b.Some? && c.Some? && d.Some? then
      Some(Token([a.value * 0x1000 + b.value * 0x100 + c.value * 0x10 + d.value], 6))
    else None
  }

  function FirstToken(s: string): (r: Option<Token>)
    requires s != []
    ensures r.Some? ==> 0 < r.value.size <= |s|
  {
    if s[0] == '\\' then
      if |s| > 1 && ShortEscape(s[1]).Some? then Some(Token([ShortEscape(s[1]).value], 2))
      else if |s| >= 6 && s[1] == 'u' then HexToken(s)
      else None
    else if s[0] == '\"' || s[0] < ' ' then None
    else Some(Token(Utf16Char(s[0]), 1))
  }

  /** The code units of the inside of a literal, nothing if it is malformed. */
  function Units(s: string): Option<seq<int>> {
    if s == [] then Some([])
    else
      match FirstToken(s)
      case None => None
      case Some(t) =>
        match Units(s[t.size..])
        case None => None
        case Some(rest) => Some(t.units + rest)
  }

  predicate WellFormed(s: string) {
    Units(s).Some?
  }

  lemma TokenOfPrefix(a: string, b: string)
    requires a != [] && FirstToken(a).Some?
    ensures FirstToken(a + b) == FirstToken(a)
  {
    var s := a + b;
    assert forall i :: 0 <= i < |a| ==> s[i] == a[i];
  }

  /** Two well-formed insides side by side denote their units side by side. */
  lemma {:induction false} UnitsConcat(a: string, b: string)
    requires WellFormed(a) && WellFormed(b)
    ensures Units(a + b) == Some(Units(a).value + Units(b).value)
    decreases |a|
  {
    if a == [] {
      assert a + b == b;
      assert [] + Units(b).value == Units(b).value;
    } else {
      TokenOfPrefix(a, b);
      var t := FirstToken(a).value;
      assert (a + b)[t.size..] == a[t.size..] + b;
      UnitsConcat(a[t.size..], b);
      var x, y := Units(a[t.size..]).value, Units(b).value;
      assert t.units + (x + y) == (t.units + x) + y;
    }
  }

  /** Only the first character of a token can be a brace. */
  lemma NoBraceInside(s: string)
    requires s != [] && FirstToken(s).Some?
    ensures forall j :: 1 <= j < FirstToken(s).value.size ==> s[j] != '{'
  {
  }

  // ----- writing a literal -----

  function HexDigit(n: int): char
    requires 0 <= n < 16
  {
    if n < 10 then (n + '0' as int) as char else (n - 10 + 'a' as int) as char
  }

  function HexEscape(n: int): string
    requires 0 <= n < 0x10000
  {
    ['\\', 'u', HexDigit(n / 0x1000), HexDigit(n / 0x100 % 0x10), HexDigit(n / 0x10 % 0x10), HexDigit(n % 0x10)]
  }

  /** `json.dumps` of one character, with its default ASCII output. */
  function EscapeChar(c: char): string {
    if c == '\"' then ['\\', '\"']
    else if c == '\\' then ['\\', '\\']
    else if c == '\n' then ['\\', 'n']
    else if c == '\r' then ['\\', 'r']
    else if c == '\t' then ['\\', 't']
    else if c as int == 0x0C then ['\\', 'f']
    else if c as int == 0x08 then ['\\', 'b']
    else if ' ' <= c <= '~' then [c]
    else if c as int < 0x10000 then HexEscape(c as int)
    else HexEscape(Utf16Char(c)[0]) + HexEscape(Utf16Char(c)[1])
  }

  /** `json.dumps(s)[1:-1]`. */
  function Escape(s: string): string {
    if s == [] then [] else EscapeChar(s[0]) + Escape(s[1..])
  }

  lemma HexDigitReads(n: int)
    requires 0 <= n < 16
    ensures HexValue(HexDigit(n)) == Some(n)
  {
  }

  lemma HexDigitsAddUp(n: int)
    requires 0 <= n < 0x10000
    ensures n / 0x1000 * 0x1000 + n / 0x100 % 0x10 * 0x100 + n / 0x10 % 0x10 * 0x10 + n % 0x10 == n
    ensures n / 0x1000 < 16
  {
  }

  /** A single escape is the whole of a literal's inside. */
  lemma OneToken(s: string, units: seq<int>)
    requires s != [] && FirstToken(s) == Some(Token(units, |s|))
    ensures Units(s) == Some(units)
  {
    hide FirstToken;
    assert s[|s|..] == [];
    assert Units([]) == Some([]);
    assert units + [] == units;
  }

  lemma HexRoundTrip(n: int)
    requires 0 <= n < 0x10000
    ensures Units(HexEscape(n)) == Some([n])
  {
    hide HexValue, HexDigit, Units;
    HexDigitsAddUp(n);
    HexDigitReads(n / 0x1000);
    HexDigitReads(n / 0x100 % 0x10);
    HexDigitReads(n / 0x10 % 0x10);
    HexDigitReads(n % 0x10);
    OneToken(HexEscape(n), [n]);
  }

  lemma EscapedChar(c: char)
    ensures Units(EscapeChar(c)) == Some(Utf16Char(c))
  {
    hide Units, HexEscape;
    if c as int >= 0x10000 {
      SurrogatePair(c);
      var units := Utf16Char(c);
      HexRoundTrip(units[0]);
      HexRoundTrip(units[1]);
      UnitsConcat(HexEscape(units[0]), HexEscape(units[1]));
      assert units == [units[0]] + [units[1]];
    } else if EscapeChar(c) == HexEscape(c as int) {
      HexRoundTrip(c as int);
    } else if EscapeChar(c) == [c] {
      OneToken([c], Utf16Char(c));
    } else {
      OneToken(EscapeChar(c), Utf16Char(c));
    }
  }

  /** Escaped text is well-formed inside a literal and reads back as itself. */
  lemma {:induction false} EscapeRoundTrip(s: string)
    ensures Units(Escape(s)) == Some(Utf16(s))
  {
    if s != [] {
      EscapedChar(s[0]);
      EscapeRoundTrip(s[1..]);
      UnitsConcat(EscapeChar(s[0]), Escape(s[1..]));
    }
  }

  // ----- the escapes by name -----

  /** The two-character escapes of section 7, as they are read and as `json.dumps` writes them; printable ASCII stands
      for itself, and anything else is written as four hexadecimal digits for each of its code units. */
  lemma EscapesTell(c: char)
    ensures EscapeChar('\"') == ['\\', '\"'] && ShortEscape('\"') == Some(34)
    ensures EscapeChar('\\') == ['\\', '\\'] && ShortEscape('\\') == Some(92) && ShortEscape('/') == Some(47)
    ensures EscapeChar(8 as char) == ['\\', 'b'] && ShortEscape('b') == Some(8)
    ensures EscapeChar(9 as char) == ['\\', 't'] && ShortEscape('t') == Some(9)
    ensures EscapeChar(10 as char) == ['\\', 'n'] && ShortEscape('n') == Some(10)
    ensures EscapeChar(12 as char) == ['\\', 'f'] && ShortEscape('f') == Some(12)
    ensures EscapeChar(13 as char) == ['\\', 'r'] && ShortEscape('r') == Some(13)
    ensures ' ' <= c <= '~' && c != '\"' && c != '\\' ==> EscapeChar(c) == [c]
    ensures EscapeChar(0xE9 as char) == ['\\', 'u', '0', '0', 'e', '9']
    ensures Utf16Char(0x1F600 as char) == [0xD83D, 0xDE00]
  {
  }
}
