/** Strings written into JSON by apps/groma-cli/src/json.rs, and read back by section 7 of RFC 8259. */
module JsonText {
  import opened Options

  predicate IsControl(c: char) {
    c < ' '
  }

  function HexDigit(d: nat): char
    requires d < 16
  {
    "0123456789abcdef"[d]
  }

  function EscapeOf(c: char): string {
    if c == '"' then "\\\""
    else if c == '\\' then "\\\\"
    else if c == '\n' then "\\n"
    else if c == '\r' then "\\r"
    else if c == '\t' then "\\t"
    else if IsControl(c) then "\\u00" + [HexDigit(c as int / 16), HexDigit(c as int % 16)]
    else [c]
  }

  /** A character stands for itself, unless it is a quote, a backslash or a control; those named have two characters. */
  lemma EscapesAreShort(c: char)
    ensures EscapeOf(c) == [c] <==> c != '"' && c != '\\' && c as int >= 32
    ensures |EscapeOf(c)| == 2 <==> c == '"' || c == '\\' || c as int == 10 || c as int == 13 || c as int == 9
    ensures |EscapeOf(c)| in {1, 2, 6} && EscapeOf(31 as char) == "\\u001f"
  {
  }

  function Escaped(s: string): string {
    if s == "" then "" else Escaped(s[..|s| - 1]) + EscapeOf(s[|s| - 1])
  }

  method JsonEscape(value: string) returns (escaped: string)
    ensures escaped == Escaped(value)
  {
    hide EscapeOf;
    escaped := "";
    for i := 0 to |value|
      invariant escaped == Escaped(value[..i])
    {
      assert value[..i + 1][..i] == value[..i];
      escaped := escaped + EscapeOf(value[i]);
    }
    assert value[..|value|] == value;
  }

  /** What follows the opening quotation mark: a string and the text after its closing mark. */
  datatype Parsed = Parsed(value: string, rest: string) | Malformed

  function HexValue(c: char): Option<nat> {
    if '0' <= c <= '9' then Some((c - '0') as nat)
    else if 'a' <= c <= 'f' then Some((c - 'a') as nat + 10)
    else if 'A' <= c <= 'F' then Some((c - 'A') as nat + 10)
    else None
  }

  /** Four hexadecimal digits at the start of `text`, as one UTF-16 code unit. */
  function CodeUnit(text: string): (r: Option<nat>)
    ensures r.Some? ==> |text| >= 4 && r.value < 0x10000
  {
    if |text| < 4 then None
    else
      match (HexValue(text[0]), HexValue(text[1]), HexValue(text[2]), HexValue(text[3]))
      case (Some(a), Some(b), Some(c), Some(d)) =>
        assert a < 16 && b < 16 && c < 16 && d < 16;
        Some(((a * 16 + b) * 16 + c) * 16 + d)
      case _ => None
  }

  /** A code unit that is half of a surrogate pair needs its other half in the escape that follows. */
  function UnicodeEscape(text: string): (r: Option<(char, nat)>)
    ensures r.Some? ==> 0 < r.value.1 <= |text|
  {
    match CodeUnit(text)
    case None => None
    case Some(high) =>
      if high < 0xD800 || 0xE000 <= high then Some((high as char, 4))
      else if high < 0xDC00 && |text| >= 10 && text[4] == '\\' && text[5] == 'u' then
        match CodeUnit(text[6..])
        case Some(low) =>
          if 0xDC00 <= low < 0xE000 then
            Some(((0x10000 + (high - 0xD800) * 0x400 + (low - 0xDC00)) as char, 10))
          else None
        case None => None
      else None
  }

  function SimpleEscape(c: char): Option<char> {
    match c
    case '"' => Some('"')
    case '\\' => Some('\\')
    case '/' => Some('/')
    case 'b' => Some(8 as char)
    case 'f' => Some(12 as char)
    case 'n' => Some('\n')
    case 'r' => Some('\r')
    case 't' => Some('\t')
    case _ => None
  }

  function Prepended(c: char, parsed: Parsed): Parsed {
    match parsed
    case Parsed(value, rest) => Parsed([c] + value, rest)
    case Malformed => Malformed
  }

  /** The reader of RFC 8259, started behind the opening quotation mark. */
  function ReadString(text: string): Parsed
    decreases |text|
  {
    if text == "" then Malformed
    else if text[0] == '"' then Parsed("", text[1..])
    else if IsControl(text[0]) then Malformed
    else if text[0] != '\\' then Prepended(text[0], ReadString(text[1..]))
    else if |text| == 1 then Malformed
    else if text[1] == 'u' then
      match UnicodeEscape(text[2..])
      case Some(step) => Prepended(step.0, ReadString(text[2 + step.1..]))
      case None => Malformed
    else
      match SimpleEscape(text[1])
      case Some(c) => Prepended(c, ReadString(text[2..]))
      case None => Malformed
  }

  /** The reader undoes one escape, whatever text follows it. */
  lemma ReadsOne(c: char, tail: string)
    ensures ReadString(EscapeOf(c) + tail) == Prepended(c, ReadString(tail))
  {
    hide ReadString;
    if |EscapeOf(c)| == 1 {
      ReadsPlain(c, tail);
    } else if |EscapeOf(c)| == 2 {
      ReadsSimple(EscapeOf(c)[1], c, tail);
      assert EscapeOf(c) == ['\\', EscapeOf(c)[1]];
    } else {
      ReadsControl(c, tail);
    }
  }

  lemma ReadsPlain(c: char, tail: string)
    requires c != '"' && c != '\\' && !IsControl(c)
    ensures ReadString([c] + tail) == Prepended(c, ReadString(tail))
  {
    hide UnicodeEscape, SimpleEscape;
    assert ([c] + tail)[1..] == tail;
  }

  lemma ReadsSimple(mark: char, c: char, tail: string)
    requires mark != 'u' && SimpleEscape(mark) == Some(c)
    ensures ReadString(['\\', mark] + tail) == Prepended(c, ReadString(tail))
  {
    hide UnicodeEscape, SimpleEscape;
    assert (['\\', mark] + tail)[2..] == tail;
  }

  lemma ReadsControl(c: char, tail: string)
    requires IsControl(c)
    ensures ReadString("\\u00" + [HexDigit(c as int / 16), HexDigit(c as int % 16)] + tail)
         == Prepended(c, ReadString(tail))
  {
    hide UnicodeEscape, SimpleEscape, HexDigit;
    var text := "\\u00" + [HexDigit(c as int / 16), HexDigit(c as int % 16)] + tail;
    assert text[2..] == ['0', '0', HexDigit(c as int / 16), HexDigit(c as int % 16)] + tail;
    ControlIsRead(c, tail);
    assert text[6..] == tail;
  }

  lemma ControlIsRead(c: char, tail: string)
    requires IsControl(c)
    ensures UnicodeEscape(['0', '0', HexDigit(c as int / 16), HexDigit(c as int % 16)] + tail) == Some((c, 4))
  {
    var (high, low) := (c as int / 16, c as int % 16);
    HexDigitIsRead(high);
    HexDigitIsRead(low);
    var text := ['0', '0', HexDigit(high), HexDigit(low)] + tail;
    assert CodeUnit(text) == Some(high * 16 + low);
  }

  lemma HexDigitIsRead(d: nat)
    requires d < 16
    ensures HexValue(HexDigit(d)) == Some(d)
  {
  }

  /** Reading what was written, with anything behind the closing mark, gives the value and exactly that remainder. */
  lemma {:induction false} EscapeRoundTrips(s: string, tail: string)
    ensures ReadString(Escaped(s) + "\"" + tail) == Parsed(s, tail)
  {
    ReadsThrough(s, "\"" + tail);
    assert Escaped(s) + "\"" + tail == Escaped(s) + ("\"" + tail);
    assert ("\"" + tail)[1..] == tail;
    assert s + "" == s;
  }

  function AllPrepended(s: string, parsed: Parsed): Parsed {
    match parsed
    case Parsed(value, rest) => Parsed(s + value, rest)
    case Malformed => Malformed
  }

  lemma {:induction false} ReadsThrough(s: string, tail: string)
    ensures ReadString(Escaped(s) + tail) == AllPrepended(s, ReadString(tail))
  {
    hide EscapeOf, ReadString;
    if s == "" {
      assert Escaped(s) + tail == tail;
      assert ReadString(tail).Parsed? ==> s + ReadString(tail).value == ReadString(tail).value;
    } else {
      var (front, last) := (s[..|s| - 1], s[|s| - 1]);
      assert Escaped(s) + tail == Escaped(front) + (EscapeOf(last) + tail);
      ReadsThrough(front, EscapeOf(last) + tail);
      ReadsOne(last, tail);
      assert ReadString(tail).Parsed? ==> front + ([last] + ReadString(tail).value) == s + ReadString(tail).value;
    }
  }

  /** Two values written to the same text are the same value. */
  lemma EscapeIsInjective(s: string, t: string)
    requires Escaped(s) == Escaped(t)
    ensures s == t
  {
    EscapeRoundTrips(s, "");
    EscapeRoundTrips(t, "");
  }

  /** A scanner that knows only that a backslash guards the next character. */
  function ClosingQuote(text: string): (r: Option<nat>)
    ensures r.Some? ==> r.value < |text| && text[r.value] == '"'
    decreases |text|
  {
    if text == "" then None
    else if text[0] == '"' then Some(0)
    else
      var step := if text[0] == '\\' then 2 else 1;
      if |text| < step then None
      else
        match ClosingQuote(text[step..])
        case Some(k) => Some(step + k)
        case None => None
  }

  function Behind(k: nat, found: Option<nat>): Option<nat> {
    match found
    case Some(i) => Some(k + i)
    case None => None
  }

  lemma ScansPlain(c: char, tail: string)
    requires c != '"' && c != '\\'
    ensures ClosingQuote([c] + tail) == Behind(1, ClosingQuote(tail))
  {
    assert ([c] + tail)[1..] == tail;
  }

  lemma ScansGuarded(c: char, tail: string)
    ensures ClosingQuote(['\\', c] + tail) == Behind(2, ClosingQuote(tail))
  {
    assert (['\\', c] + tail)[2..] == tail;
  }

  lemma ScansOne(c: char, tail: string)
    ensures ClosingQuote(EscapeOf(c) + tail) == Behind(|EscapeOf(c)|, ClosingQuote(tail))
  {
    hide ClosingQuote;
    if |EscapeOf(c)| == 1 {
      ScansPlain(c, tail);
    } else if |EscapeOf(c)| == 2 {
      ScansGuarded(EscapeOf(c)[1], tail);
      assert EscapeOf(c) == ['\\', EscapeOf(c)[1]];
    } else {
      ScansHex(HexDigit(c as int / 16), HexDigit(c as int % 16), tail);
    }
  }

  lemma ScansHex(high: char, low: char, tail: string)
    requires high != '"' && high != '\\' && low != '"' && low != '\\'
    ensures ClosingQuote("\\u00" + [high, low] + tail) == Behind(6, ClosingQuote(tail))
  {
    hide ClosingQuote;
    var text := [low] + tail;
    ScansPlain(low, tail);
    ScansPlain(high, text);
    ScansTwoZeros([high] + text);
    assert "\\u00" + [high, low] + tail == ['\\', 'u'] + (['0', '0'] + ([high] + text));
  }

  lemma ScansTwoZeros(tail: string)
    ensures ClosingQuote(['\\', 'u'] + (['0', '0'] + tail)) == Behind(4, ClosingQuote(tail))
  {
    hide ClosingQuote;
    ScansPlain('0', tail);
    ScansPlain('0', ['0'] + tail);
    assert ['0', '0'] + tail == ['0'] + (['0'] + tail);
    ScansGuarded('u', ['0', '0'] + tail);
  }

  /** The first unguarded quote is the one the writer put behind the value. */
  lemma {:induction false} ClosingQuoteIsTheWriters(s: string, tail: string)
    ensures ClosingQuote(Escaped(s) + "\"" + tail) == Some(|Escaped(s)|)
  {
    ScansThrough(s, "\"" + tail);
    assert Escaped(s) + "\"" + tail == Escaped(s) + ("\"" + tail);
  }

  lemma {:induction false} ScansThrough(s: string, tail: string)
    ensures ClosingQuote(Escaped(s) + tail) == Behind(|Escaped(s)|, ClosingQuote(tail))
  {
    hide EscapeOf, ClosingQuote;
    if s == "" {
      assert Escaped(s) + tail == tail;
    } else {
      var (front, last) := (s[..|s| - 1], s[|s| - 1]);
      assert Escaped(s) + tail == Escaped(front) + (EscapeOf(last) + tail);
      ScansThrough(front, EscapeOf(last) + tail);
      ScansOne(last, tail);
    }
  }

  /** No control character is written raw, so one record stays on one line. */
  lemma {:induction false} NoRawControl(s: string)
    ensures forall c | c in Escaped(s) :: !IsControl(c)
  {
    hide EscapeOf, IsControl;
    if s != "" {
      NoRawControl(s[..|s| - 1]);
      NoRawControlIn(s[|s| - 1]);
    }
  }

  lemma NoRawControlIn(c: char)
    ensures forall d | d in EscapeOf(c) :: !IsControl(d)
  {
  }

  predicate IsPlain(c: char) {
    c != '"' && c != '\\' && !IsControl(c)
  }

  lemma PlainIsOneCharacter(c: char)
    ensures 1 <= |EscapeOf(c)| <= 6
    ensures |EscapeOf(c)| == 1 <==> IsPlain(c)
    ensures IsPlain(c) ==> EscapeOf(c) == [c]
  {
  }

  /** The text is the value itself exactly when nothing in it needs escaping, and never shorter. */
  lemma {:induction false} UnchangedExactlyWhenPlain(s: string)
    ensures |s| <= |Escaped(s)| <= 6 * |s|
    ensures Escaped(s) == s <==> forall c | c in s :: IsPlain(c)
  {
    hide EscapeOf, IsPlain;
    if s != "" {
      var (front, last) := (s[..|s| - 1], s[|s| - 1]);
      UnchangedExactlyWhenPlain(front);
      PlainIsOneCharacter(last);
      assert s == front + [last];
      assert last in s;
      if Escaped(s) == s {
        assert Escaped(s)[..|Escaped(front)|] == Escaped(front);
        assert s[..|front|] == front;
      }
    }
  }
}
