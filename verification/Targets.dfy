/**
 Request targets: percent_decode and parse_target of apps/groma-api/src/main.rs.
 A string is its UTF-8 bytes; `lossy` is the library's replacement of malformed UTF-8.
 */
module Targets {
  import opened Options

  newtype Byte = x: int | 0 <= x < 256
  type Text = seq<Byte>

  const PERCENT: Byte := 37
  const PLUS: Byte := 43
  const SPACE: Byte := 32
  const SLASH: Byte := 47
  const QUESTION: Byte := 63
  const AMPERSAND: Byte := 38
  const EQUALS: Byte := 61

  function HexValue(b: Byte): (r: Option<Byte>)
    ensures r.Some? ==> r.value < 16
  {
    if 48 <= b <= 57 then Some(b - 48)
    else if 65 <= b <= 70 then Some(b - 55)
    else if 97 <= b <= 102 then Some(b - 87)
    else None
  }

  /** What the library's number parser makes of two bytes in base 16: a leading plus sign is a sign, not a digit. */
  function ParsedHex(a: Byte, b: Byte): Option<Byte> {
    match (HexValue(a), HexValue(b))
    case (Some(high), Some(low)) => Some(16 * high + low)
    case (None, Some(low)) => if a == PLUS then Some(low) else None
    case _ => None
  }

  /** Does an escape begin at the front of `s`? */
  predicate Escapes(s: Text) {
    |s| > 2 && s[0] == PERCENT && ParsedHex(s[1], s[2]).Some?
  }

  function Decoded(s: Text): Text {
    if s == [] then []
    else if s[0] == PLUS then [SPACE] + Decoded(s[1..])
    else if Escapes(s) then [ParsedHex(s[1], s[2]).value] + Decoded(s[3..])
    else [s[0]] + Decoded(s[1..])
  }

  lemma NothingDecodes(s: Text)
    requires s == []
    ensures Decoded(s) == []
  {
  }

  lemma DecodesOn(bytes: Text, index: nat)
    requires index < |bytes|
    ensures bytes[index] == PLUS ==> Decoded(bytes[index..]) == [SPACE] + Decoded(bytes[index + 1..])
    ensures bytes[index] != PLUS && !Escapes(bytes[index..])
        ==> Decoded(bytes[index..]) == [bytes[index]] + Decoded(bytes[index + 1..])
  {
    hide Escapes;
    assert bytes[index..][1..] == bytes[index + 1..];
  }

  lemma DecodesEscape(bytes: Text, index: nat)
    requires index + 2 < |bytes| && bytes[index] == PERCENT && ParsedHex(bytes[index + 1], bytes[index + 2]).Some?
    ensures Decoded(bytes[index..])
         == [ParsedHex(bytes[index + 1], bytes[index + 2]).value] + Decoded(bytes[index + 3..])
  {
    hide ParsedHex;
    assert bytes[index..][3..] == bytes[index + 3..];
  }

  method PercentDecode(lossy: Text -> Text, bytes: Text) returns (text: Text)
    ensures text == lossy(Decoded(bytes))
  {
    hide ParsedHex, Decoded;
    assert bytes[0..] == bytes;
    var out: Text, index := [], 0;
    while index < |bytes|
      invariant 0 <= index <= |bytes|
      invariant Decoded(bytes) == out + Decoded(bytes[index..])
    {
      DecodesOn(bytes, index);
      var b := bytes[index];
      if b == PLUS {
        out, index := out + [SPACE], index + 1;
      } else if b == PERCENT && index + 2 < |bytes| {
        var decoded := ParsedHex(bytes[index + 1], bytes[index + 2]);
        match decoded {
          case Some(value) =>
            DecodesEscape(bytes, index);
            out, index := out + [value], index + 3;
          case None => out, index := out + [b], index + 1;
        }
      } else {
        out, index := out + [b], index + 1;
      }
    }
    NothingDecodes(bytes[index..]);
    assert out + [] == out;
    text := lossy(out);
  }

  /** The library's split: one piece more than there are separators. */
  function Split(s: Text, separator: Byte): (r: seq<Text>)
    ensures r != [] && forall piece | piece in r :: separator !in piece
  {
    if s == [] then [[]]
    else
      var rest := Split(s[1..], separator);
      if s[0] == separator then [[]] + rest else [[s[0]] + rest[0]] + rest[1..]
  }

  /** The library's split at the first separator, `(s, [])` where there is none. */
  function SplitOnce(s: Text, separator: Byte): (Text, Text) {
    if s == [] then ([], [])
    else if s[0] == separator then ([], s[1..])
    else
      var (before, after) := SplitOnce(s[1..], separator);
      ([s[0]] + before, after)
  }

  function NonEmpty(pieces: seq<Text>): (r: seq<Text>)
    ensures forall piece | piece in r :: piece != []
  {
    if pieces == [] then []
    else NonEmpty(pieces[..|pieces| - 1]) + if pieces[|pieces| - 1] == [] then [] else [pieces[|pieces| - 1]]
  }

  function DecodedAll(lossy: Text -> Text, pieces: seq<Text>): (r: seq<Text>)
    ensures |r| == |pieces| && forall i | 0 <= i < |pieces| :: r[i] == lossy(Decoded(pieces[i]))
  {
    seq(|pieces|, i requires 0 <= i < |pieces| => lossy(Decoded(pieces[i])))
  }

  /** Of two pairs with one key the later stands. */
  function QueryOf(lossy: Text -> Text, pairs: seq<Text>): map<Text, Text> {
    if pairs == [] then map[]
    else
      var (key, value) := SplitOnce(pairs[|pairs| - 1], EQUALS);
      QueryOf(lossy, pairs[..|pairs| - 1])[lossy(Decoded(key)) := lossy(Decoded(value))]
  }

  function SegmentsOf(lossy: Text -> Text, target: Text): seq<Text> {
    DecodedAll(lossy, NonEmpty(Split(SplitOnce(target, QUESTION).0, SLASH)))
  }

  function ParametersOf(lossy: Text -> Text, target: Text): map<Text, Text> {
    QueryOf(lossy, NonEmpty(Split(SplitOnce(target, QUESTION).1, AMPERSAND)))
  }

  method ParseTarget(lossy: Text -> Text, target: Text) returns (segments: seq<Text>, query: map<Text, Text>)
    ensures segments == SegmentsOf(lossy, target)
    ensures query == ParametersOf(lossy, target)
  {
    hide Decoded, Split, SplitOnce, NonEmpty;
    var (path, rawQuery) := SplitOnce(target, QUESTION);
    var names := NonEmpty(Split(path, SLASH));
    segments := [];
    for i := 0 to |names|
      invariant segments == DecodedAll(lossy, names[..i])
    {
      var segment := PercentDecode(lossy, names[i]);
      segments := segments + [segment];
    }
    assert names[..|names|] == names;
    var pairs := NonEmpty(Split(rawQuery, AMPERSAND));
    query := map[];
    for i := 0 to |pairs|
      invariant query == QueryOf(lossy, pairs[..i])
    {
      var (key, value) := SplitOnce(pairs[i], EQUALS);
      var k := PercentDecode(lossy, key);
      var v := PercentDecode(lossy, value);
      query := query[k := v];
      assert pairs[..i + 1][..i] == pairs[..i];
    }
    assert pairs[..|pairs|] == pairs;
  }

  /** The bytes a writer must escape for this parser to see them as data. */
  predicate IsSpecial(b: Byte) {
    b in {PERCENT, PLUS, SLASH, QUESTION, AMPERSAND, EQUALS}
  }

  /**
   `e` writes `s`: a byte that is not special may stand for itself, any byte may be escaped with digits
   of either case, and a space may be written as a plus sign.
   */
  ghost predicate Writes(e: Text, s: Text) {
    if s == [] then e == []
    else
      || (e != [] && e[0] == s[0] && !IsSpecial(s[0]) && Writes(e[1..], s[1..]))
      || (e != [] && e[0] == PLUS && s[0] == SPACE && Writes(e[1..], s[1..]))
      || (|e| > 2 && IsEscapeOf(e[0], e[1], e[2], s[0]) && Writes(e[3..], s[1..]))
  }

  predicate IsEscapeOf(a: Byte, b: Byte, c: Byte, s: Byte) {
    && a == PERCENT && HexValue(b).Some? && HexValue(c).Some?
    && s == 16 * HexValue(b).value + HexValue(c).value
  }

  lemma {:induction false} WrittenDecodes(e: Text, s: Text)
    requires Writes(e, s)
    ensures Decoded(e) == s
    ensures forall b | b in e :: b !in {SLASH, QUESTION, AMPERSAND, EQUALS}
    ensures e == [] <==> s == []
  {
    if s != [] {
      assert s == [s[0]] + s[1..];
      if |e| > 2 && IsEscapeOf(e[0], e[1], e[2], s[0]) && Writes(e[3..], s[1..]) {
        WrittenDecodes(e[3..], s[1..]);
        assert e == [e[0], e[1], e[2]] + e[3..];
      } else {
        WrittenDecodes(e[1..], s[1..]);
        assert e == [e[0]] + e[1..];
      }
    }
  }

  /** Escaping every byte is one way to write any text, so every text can be written. */
  function EscapedText(s: Text): Text {
    if s == [] then [] else [PERCENT, HexDigit(s[0] / 16), HexDigit(s[0] % 16)] + EscapedText(s[1..])
  }

  function HexDigit(d: Byte): (r: Byte)
    requires d < 16
    ensures HexValue(r) == Some(d)
  {
    if d < 10 then 48 + d else 55 + d
  }

  lemma {:induction false} EveryTextCanBeWritten(s: Text)
    ensures Writes(EscapedText(s), s)
  {
    hide HexDigit, HexValue;
    if s != [] {
      EveryTextCanBeWritten(s[1..]);
      assert EscapedText(s)[3..] == EscapedText(s[1..]);
    }
  }

  ghost predicate WritesAll(es: seq<Text>, ss: seq<Text>) {
    |es| == |ss| && forall i | 0 <= i < |es| :: Writes(es[i], ss[i])
  }

  datatype Parameter = Parameter(key: Text, value: Text)

  /** One pair of the query as a writer puts it. */
  ghost predicate WritesPair(e: Text, p: Parameter) {
    exists k, v :: Writes(k, p.key) && Writes(v, p.value) && e == k + [EQUALS] + v
  }

  ghost predicate WritesPairs(es: seq<Text>, parameters: seq<Parameter>) {
    |es| == |parameters| && forall i | 0 <= i < |es| :: WritesPair(es[i], parameters[i])
  }

  /** Every piece behind a separator of its own. */
  function Led(pieces: seq<Text>, separator: Byte): Text {
    if pieces == [] then [] else [separator] + pieces[0] + Led(pieces[1..], separator)
  }

  /** A path of segments and, behind a question mark, pairs joined by ampersands. */
  function Target(segments: seq<Text>, pairs: seq<Text>): Text {
    Led(segments, SLASH) + if pairs == [] then [] else [QUESTION] + Led(pairs, AMPERSAND)[1..]
  }

  function Collected(parameters: seq<Parameter>): map<Text, Text> {
    if parameters == [] then map[]
    else
      var last := parameters[|parameters| - 1];
      Collected(parameters[..|parameters| - 1])[last.key := last.value]
  }

  ghost predicate Without(b: Byte, pieces: seq<Text>) {
    forall piece | piece in pieces :: b !in piece
  }

  lemma {:induction false} SplitsFirst(s: Text, separator: Byte, rest: Text)
    requires separator !in s
    ensures Split(s + [separator] + rest, separator) == [s] + Split(rest, separator)
    ensures SplitOnce(s + [separator] + rest, separator) == (s, rest)
  {
    var whole := s + [separator] + rest;
    if s == [] {
      assert whole[1..] == rest;
    } else {
      SplitsFirst(s[1..], separator, rest);
      assert whole[1..] == s[1..] + [separator] + rest;
      assert [s[0]] + s[1..] == s;
    }
  }

  lemma {:induction false} SplitsNothing(s: Text, separator: Byte)
    requires separator !in s
    ensures Split(s, separator) == [s] && SplitOnce(s, separator) == (s, [])
  {
    if s != [] {
      SplitsNothing(s[1..], separator);
      assert [s[0]] + s[1..] == s;
    }
  }

  lemma {:induction false} SplitsLed(pieces: seq<Text>, separator: Byte)
    requires Without(separator, pieces)
    ensures Split(Led(pieces, separator), separator) == [[]] + pieces
    ensures pieces != [] ==> Split(Led(pieces, separator)[1..], separator) == pieces
  {
    hide Split;
    if pieces == [] {
      SplitsNothing([], separator);
    } else {
      var (first, rest) := (pieces[0], Led(pieces[1..], separator));
      SplitsLed(pieces[1..], separator);
      assert pieces == [first] + pieces[1..];
      assert Led(pieces, separator)[1..] == first + rest;
      if pieces[1..] == [] {
        assert first + rest == first;
        SplitsNothing(first, separator);
      } else {
        assert first + rest == first + [separator] + rest[1..];
        SplitsFirst(first, separator, rest[1..]);
      }
      assert Led(pieces, separator) == [] + [separator] + Led(pieces, separator)[1..];
      SplitsFirst([], separator, Led(pieces, separator)[1..]);
    }
  }

  lemma {:induction false} LedAvoids(pieces: seq<Text>, separator: Byte, b: Byte)
    requires b != separator && Without(b, pieces)
    ensures b !in Led(pieces, separator)
  {
    if pieces != [] {
      LedAvoids(pieces[1..], separator, b);
    }
  }

  ghost predicate NoneEmpty(pieces: seq<Text>) {
    forall i | 0 <= i < |pieces| :: |pieces[i]| > 0
  }

  lemma {:induction false} NonEmptyKeeps(pieces: seq<Text>)
    requires NoneEmpty(pieces)
    ensures NonEmpty(pieces) == pieces
  {
    if pieces != [] {
      var n := |pieces| - 1;
      NonEmptyKeeps(pieces[..n]);
      assert pieces == pieces[..n] + [pieces[n]];
    }
  }

  lemma {:induction false} NonEmptyDropsTheLead(pieces: seq<Text>)
    ensures NonEmpty([[]] + pieces) == NonEmpty(pieces)
  {
    var led := [[]] + pieces;
    if pieces == [] {
      assert NonEmpty(led) == NonEmpty(led[..0]);
    } else {
      var n := |pieces| - 1;
      NonEmptyDropsTheLead(pieces[..n]);
      assert led[..n + 1] == [[]] + pieces[..n];
      assert led[n + 1] == pieces[n];
    }
  }

  ghost predicate Keeps(lossy: Text -> Text, texts: seq<Text>) {
    forall s | s in texts :: lossy(s) == s
  }

  ghost predicate KeepsPairs(lossy: Text -> Text, parameters: seq<Parameter>) {
    forall p | p in parameters :: lossy(p.key) == p.key && lossy(p.value) == p.value
  }

  /**
   Segments and pairs come back exactly as they were before a writer escaped and joined them:
   for every way of escaping, every non-empty segment of valid UTF-8 and every list of pairs.
   */
  lemma TargetRoundTrips(lossy: Text -> Text, segments: seq<Text>, parameters: seq<Parameter>,
                         names: seq<Text>, pairs: seq<Text>)
    requires WritesAll(names, segments) && NoneEmpty(segments)
    requires WritesPairs(pairs, parameters)
    requires Keeps(lossy, segments) && KeepsPairs(lossy, parameters)
    ensures SegmentsOf(lossy, Target(names, pairs)) == segments
    ensures ParametersOf(lossy, Target(names, pairs)) == Collected(parameters)
  {
    hide Split, SplitOnce, Led, NonEmpty, Decoded, Writes, WritesPair, QueryOf, Collected;
    NamesAreClean(names, segments);
    var path := Led(names, SLASH);
    LedAvoids(names, SLASH, QUESTION);
    SplitsLed(names, SLASH);
    NonEmptyKeeps(names);
    NonEmptyDropsTheLead(names);
    assert DecodedAll(lossy, names) == segments by {
      forall i | 0 <= i < |names| ensures lossy(Decoded(names[i])) == segments[i] {
        WrittenDecodes(names[i], segments[i]);
        assert segments[i] in segments;
      }
    }
    QueryRoundTrips(lossy, parameters, pairs);
    PairsAreClean(pairs, parameters);
    NonEmptyKeeps(pairs);
    if pairs == [] {
      assert Target(names, pairs) == path;
      SplitsNothing(path, QUESTION);
      NoPairs();
    } else {
      SplitsLed(pairs, AMPERSAND);
      assert Target(names, pairs) == path + [QUESTION] + Led(pairs, AMPERSAND)[1..] by { LedIsLed(pairs, AMPERSAND); }
      SplitsFirst(path, QUESTION, Led(pairs, AMPERSAND)[1..]);
    }
  }

  lemma NoPairs()
    ensures NonEmpty(Split([], AMPERSAND)) == []
  {
  }

  lemma LedIsLed(pieces: seq<Text>, separator: Byte)
    requires pieces != []
    ensures Led(pieces, separator) != [] && Led(pieces, separator)[0] == separator
  {
  }

  lemma NamesAreClean(names: seq<Text>, segments: seq<Text>)
    requires WritesAll(names, segments) && NoneEmpty(segments)
    ensures Without(SLASH, names) && Without(QUESTION, names) && NoneEmpty(names)
  {
    hide Writes, Decoded;
    forall i | 0 <= i < |names| ensures SLASH !in names[i] && QUESTION !in names[i] && |names[i]| > 0 {
      WrittenDecodes(names[i], segments[i]);
    }
  }

  lemma PairsAreClean(pairs: seq<Text>, parameters: seq<Parameter>)
    requires WritesPairs(pairs, parameters)
    ensures Without(AMPERSAND, pairs) && NoneEmpty(pairs)
  {
    hide Writes, Decoded;
    forall i | 0 <= i < |pairs| ensures AMPERSAND !in pairs[i] && |pairs[i]| > 0 {
      var k, v :| Writes(k, parameters[i].key) && Writes(v, parameters[i].value) && pairs[i] == k + [EQUALS] + v;
      WrittenDecodes(k, parameters[i].key);
      WrittenDecodes(v, parameters[i].value);
    }
  }

  lemma {:induction false} QueryRoundTrips(lossy: Text -> Text, parameters: seq<Parameter>, pairs: seq<Text>)
    requires WritesPairs(pairs, parameters) && KeepsPairs(lossy, parameters)
    ensures QueryOf(lossy, pairs) == Collected(parameters)
  {
    hide Writes, Decoded, SplitOnce;
    if pairs != [] {
      var n := |pairs| - 1;
      QueryRoundTrips(lossy, parameters[..n], pairs[..n]);
      var p := parameters[n];
      var k, v :| Writes(k, p.key) && Writes(v, p.value) && pairs[n] == k + [EQUALS] + v;
      WrittenDecodes(k, p.key);
      WrittenDecodes(v, p.value);
      SplitsFirst(k, EQUALS, v);
      assert p in parameters;
    }
  }

  /** Pairs with distinct keys are a map, and it is the map the parser gives back. */
  lemma {:induction false} DistinctKeysAreAMap(parameters: seq<Parameter>)
    requires forall i, j | 0 <= i < j < |parameters| :: parameters[i].key != parameters[j].key
    ensures forall k :: k in Collected(parameters) <==> exists i | 0 <= i < |parameters| :: parameters[i].key == k
    ensures forall i | 0 <= i < |parameters| ::
              && parameters[i].key in Collected(parameters)
              && Collected(parameters)[parameters[i].key] == parameters[i].value
  {
    if parameters != [] {
      var n := |parameters| - 1;
      var front := parameters[..n];
      DistinctKeysAreAMap(front);
      assert forall i | 0 <= i < n :: front[i] == parameters[i];
    }
  }

  /** Decoding leaves a text as written exactly when no plus sign and no escape stands in it. */
  lemma {:induction false} UnchangedExactlyWhenNothingDecodes(s: Text)
    ensures |Decoded(s)| <= |s|
    ensures Decoded(s) == s <==> PLUS !in s && forall i | 0 <= i < |s| :: !Escapes(s[i..])
  {
    hide Escapes;
    if s != [] {
      assert s[0..] == s;
      if s[0] != PLUS && Escapes(s) {
        EscapesAreLong(s);
        UnchangedExactlyWhenNothingDecodes(s[3..]);
      } else {
        var rest := s[1..];
        UnchangedExactlyWhenNothingDecodes(rest);
        assert s == [s[0]] + rest;
        if Escapes(s) {
          EscapesAreLong(s);
        }
        NothingDecodesFrom(s);
      }
    }
  }

  lemma EscapesAreLong(s: Text)
    requires Escapes(s)
    ensures |s| > 2 && s[0] != PLUS
  {
  }

  lemma NothingDecodesFrom(s: Text)
    requires s != [] && !Escapes(s)
    ensures (forall i | 0 <= i < |s| :: !Escapes(s[i..])) <==> forall i | 0 <= i < |s[1..]| :: !Escapes(s[1..][i..])
  {
    hide Escapes;
    var rest := s[1..];
    assert s[0..] == s;
    forall i | 0 < i < |s| ensures s[i..] == rest[i - 1..] {
    }
    if forall i | 0 <= i < |rest| :: !Escapes(rest[i..]) {
      forall i | 0 <= i < |s| ensures !Escapes(s[i..]) {
        assert i > 0 ==> s[i..] == rest[i - 1..];
      }
    }
    if forall i | 0 <= i < |s| :: !Escapes(s[i..]) {
      forall i | 0 <= i < |rest| ensures !Escapes(rest[i..]) {
        assert s[i + 1..] == rest[i..];
      }
    }
  }

  /** An escape that is not two digits is decoded exactly where it is a plus sign and a digit. */
  lemma MalformedEscapesExactly(s: Text)
    requires |s| > 2 && s[0] == PERCENT && !(HexValue(s[1]).Some? && HexValue(s[2]).Some?)
    ensures Escapes(s) <==> s[1] == PLUS && HexValue(s[2]).Some?
  {
  }

  /** An escape with a sign for its first digit is no escape of RFC 3986, yet "%+F" decodes to one byte. */
  lemma SignedEscapeDecodes()
    ensures Decoded([PERCENT, PLUS, 70]) == [15]
    ensures HexValue(PLUS).None?
  {
    assert [PERCENT, PLUS, 70][3..] == [];
  }
}
