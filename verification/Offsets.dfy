/** Conversion of column offsets between UTF-8 and UTF-16 code units (src/atlas/python_semantic_query.py,
    `_lines`, `_convert`, `_range`; section 3 of RFC 3629, section 2 of RFC 2781). */
module Offsets {
  import opened Ordering

  /** A Unicode scalar value. */
  type Scalar = c: int | 0 <= c < 0x110000 && !(0xD800 <= c < 0xE000)

  datatype Codec = Utf8 | Utf16

  // ---------------------------------------------------------------- encoding

  /** The code units of one scalar value: bytes in UTF-8, sixteen-bit units in UTF-16. */
  function Units(codec: Codec, c: Scalar): (units: seq<int>)
    ensures 1 <= |units| <= 4
  {
    match codec
    case Utf8 =>
      if c < 0x80 then [c]
      else if c < 0x800 then [0xC0 + c / 0x40, 0x80 + c % 0x40]
      else if c < 0x10000 then [0xE0 + c / 0x1000, 0x80 + c / 0x40 % 0x40, 0x80 + c % 0x40]
      else [0xF0 + c / 0x40000, 0x80 + c / 0x1000 % 0x40, 0x80 + c / 0x40 % 0x40, 0x80 + c % 0x40]
    case Utf16 =>
      if c < 0x10000 then [c]
      else [0xD800 + (c - 0x10000) / 0x400, 0xDC00 + (c - 0x10000) % 0x400]
  }

  /** One character of every length, in both encodings. */
  lemma KnownUnits()
    ensures Units(Utf8, 0x41) == [0x41] && Units(Utf8, 0xE9) == [0xC3, 0xA9] && Units(Utf8, 0x20AC) == [0xE2, 0x82, 0xAC]
    ensures Units(Utf8, 0x1F600) == [0xF0, 0x9F, 0x98, 0x80]
    ensures Units(Utf16, 0x20AC) == [0x20AC] && Units(Utf16, 0x1F600) == [0xD83D, 0xDE00]
  {
  }

  function Encode(codec: Codec, text: seq<Scalar>): seq<int>
  {
    if text == [] then [] else Units(codec, text[0]) + Encode(codec, text[1..])
  }

  // ---------------------------------------------------------------- strict decoding

  /** How many units the first unit announces; none for a unit that cannot come first. */
  function Announced(codec: Codec, unit: int): nat
  {
    match codec
    case Utf8 =>
      if 0 <= unit < 0x80 then 1 else if 0xC2 <= unit < 0xE0 then 2 else if 0xE0 <= unit < 0xF0 then 3
      else if 0xF0 <= unit < 0xF5 then 4 else 0
    case Utf16 =>
      if 0 <= unit < 0xD800 || 0xE000 <= unit < 0x10000 then 1 else if 0xD800 <= unit < 0xDC00 then 2 else 0
  }

  /** The value that units of the announced shape stand for. */
  function Value(codec: Codec, units: seq<int>): int
    requires 1 <= |units| <= 4
  {
    match codec
    case Utf8 =>
      if |units| == 1 then units[0]
      else if |units| == 2 then (units[0] - 0xC0) * 0x40 + (units[1] - 0x80)
      else if |units| == 3 then (units[0] - 0xE0) * 0x1000 + (units[1] - 0x80) * 0x40 + (units[2] - 0x80)
      else (units[0] - 0xF0) * 0x40000 + (units[1] - 0x80) * 0x1000 + (units[2] - 0x80) * 0x40 + (units[3] - 0x80)
    case Utf16 =>
      if |units| == 1 then units[0] else (units[0] - 0xD800) * 0x400 + (units[1] - 0xDC00) + 0x10000
  }

  predicate IsScalar(c: int)
  {
    0 <= c < 0x110000 && !(0xD800 <= c < 0xE000)
  }

  /** A strict decoder accepts only the shortest encodings of scalar values. */
  function Decode(codec: Codec, units: seq<int>): Option<seq<Scalar>>
  {
    if units == [] then Some([])
    else
      var n := Announced(codec, units[0]);
      if n == 0 || |units| < n then None
      else
        var c := Value(codec, units[..n]);
        if !IsScalar(c) || Units(codec, c) != units[..n] then None
        else
          var rest := Decode(codec, units[n..]);
          if rest.None? then None else Some([c as Scalar] + rest.value)
  }

  // ---------------------------------------------------------------- a prefix decodes exactly at a boundary

  /** Dividing in steps of six bits. */
  lemma SixBits(c: nat)
    ensures c / 0x40 / 0x40 == c / 0x1000 && c / 0x1000 / 0x40 == c / 0x40000
    ensures c == c / 0x40 * 0x40 + c % 0x40
  {
  }

  lemma TwoBytesRecognised(c: Scalar)
    requires 0x80 <= c < 0x800
    ensures Announced(Utf8, Units(Utf8, c)[0]) == 2 && Value(Utf8, Units(Utf8, c)) == c
  {
    SixBits(c);
  }

  lemma ThreeBytesRecognised(c: Scalar)
    requires 0x800 <= c < 0x10000
    ensures Announced(Utf8, Units(Utf8, c)[0]) == 3 && Value(Utf8, Units(Utf8, c)) == c
  {
    SixBits(c);
    SixBits(c / 0x40);
  }

  lemma FourBytesRecognised(c: Scalar)
    requires 0x10000 <= c
    ensures Announced(Utf8, Units(Utf8, c)[0]) == 4 && Value(Utf8, Units(Utf8, c)) == c
  {
    SixBits(c);
    SixBits(c / 0x40);
    SixBits(c / 0x1000);
  }

  lemma UnitsRecognised(codec: Codec, c: Scalar)
    ensures var units := Units(codec, c); Announced(codec, units[0]) == |units| && Value(codec, units) == c
  {
    if codec.Utf8? {
      if 0x10000 <= c {
        FourBytesRecognised(c);
      } else if 0x800 <= c {
        ThreeBytesRecognised(c);
      } else if 0x80 <= c {
        TwoBytesRecognised(c);
      }
    }
  }

  lemma DecodeFirst(codec: Codec, c: Scalar, tail: seq<int>)
    ensures Decode(codec, Units(codec, c) + tail)
         == var rest := Decode(codec, tail); if rest.None? then None else Some([c] + rest.value)
  {
    var units := Units(codec, c) + tail;
    UnitsRecognised(codec, c);
    assert units[0] == Units(codec, c)[0] && units[..|Units(codec, c)|] == Units(codec, c);
    assert units[|Units(codec, c)|..] == tail;
  }

  lemma DecodeTruncated(codec: Codec, c: Scalar, m: nat)
    requires 0 < m < |Units(codec, c)|
    ensures Decode(codec, Units(codec, c)[..m]).None?
  {
    UnitsRecognised(codec, c);
  }

  /** Where the first `k` characters end. */
  function Boundary(codec: Codec, text: seq<Scalar>, k: nat): nat
    requires k <= |text|
  {
    |Encode(codec, text[..k])|
  }

  lemma BoundaryStep(codec: Codec, text: seq<Scalar>, k: nat)
    requires 0 < k <= |text|
    ensures Boundary(codec, text, k) == |Units(codec, text[0])| + Boundary(codec, text[1..], k - 1)
  {
    assert text[..k][1..] == text[1..][..k - 1];
  }

  /** The encoding of a text cut at `m` decodes exactly when `m` is a character boundary, to the characters before it. */
  lemma {:induction false} DecodePrefix(codec: Codec, text: seq<Scalar>, m: nat)
    requires m <= |Encode(codec, text)|
    ensures Decode(codec, Encode(codec, text)[..m]).Some? <==> exists k :: 0 <= k <= |text| && Boundary(codec, text, k) == m
    ensures forall k :: 0 <= k <= |text| && Boundary(codec, text, k) == m ==> Decode(codec, Encode(codec, text)[..m]) == Some(text[..k])
    decreases |text|
  {
    var raw := Encode(codec, text);
    if m == 0 {
      assert text[..0] == [] && Boundary(codec, text, 0) == 0;
      forall k | 0 < k <= |text| ensures Boundary(codec, text, k) > 0 {
        BoundaryStep(codec, text, k);
      }
    } else {
      var first, rest := Units(codec, text[0]), Encode(codec, text[1..]);
      if m < |first| {
        assert raw[..m] == first[..m];
        DecodeTruncated(codec, text[0], m);
        forall k | 0 <= k <= |text| ensures Boundary(codec, text, k) != m {
          if k > 0 {
            BoundaryStep(codec, text, k);
          }
        }
      } else {
        assert raw[..m] == first + rest[..m - |first|];
        DecodeFirst(codec, text[0], rest[..m - |first|]);
        DecodePrefix(codec, text[1..], m - |first|);
        PrefixStep(codec, text, m);
      }
    }
  }

  lemma PrefixStep(codec: Codec, text: seq<Scalar>, m: nat)
    requires text != [] && m >= |Units(codec, text[0])|
    ensures (exists k :: 0 <= k <= |text| && Boundary(codec, text, k) == m)
       <==> exists k :: 0 <= k <= |text[1..]| && Boundary(codec, text[1..], k) == m - |Units(codec, text[0])|
    ensures forall k :: 0 <= k <= |text| && Boundary(codec, text, k) == m ==>
              && 0 < k && Boundary(codec, text[1..], k - 1) == m - |Units(codec, text[0])|
              && text[..k] == [text[0]] + text[1..][..k - 1]
  {
    forall k | 0 < k <= |text|
      ensures Boundary(codec, text, k) == |Units(codec, text[0])| + Boundary(codec, text[1..], k - 1)
    {
      BoundaryStep(codec, text, k);
    }
    if k :| 0 <= k <= |text[1..]| && Boundary(codec, text[1..], k) == m - |Units(codec, text[0])| {
      assert Boundary(codec, text, k + 1) == m;
    }
    if k :| 0 <= k <= |text| && Boundary(codec, text, k) == m {
      assert k > 0 && 0 <= k - 1 <= |text[1..]|;
    }
  }

  // ---------------------------------------------------------------- one line

  /** `_convert` on one line: the prefix before the offset, counted in the target's units. */
  function ConvertInLine(text: seq<Scalar>, character: int, source: Codec, target: Codec): Option<nat>
  {
    var raw := Encode(source, text);
    if character < 0 || |raw| < character then None
    else
      match Decode(source, raw[..character])
      case None => None
      case Some(prefix) => Some(|Encode(target, prefix)|)
  }

  /** The conversion is defined exactly at character boundaries, where it gives the target's boundary. */
  lemma ConvertExactly(text: seq<Scalar>, character: int, source: Codec, target: Codec, n: int)
    ensures (n >= 0 && ConvertInLine(text, character, source, target) == Some(n))
       <==> exists k :: 0 <= k <= |text| && Boundary(source, text, k) == character && Boundary(target, text, k) == n
  {
    if 0 <= character <= |Encode(source, text)| {
      DecodePrefix(source, text, character);
      if ConvertInLine(text, character, source, target).Some? {
        var k :| 0 <= k <= |text| && Boundary(source, text, k) == character;
        assert ConvertInLine(text, character, source, target) == Some(Boundary(target, text, k));
      }
    } else {
      forall k | 0 <= k <= |text| ensures Boundary(source, text, k) <= |Encode(source, text)| {
        BoundaryGrows(source, text, k, |text|);
        assert text[..|text|] == text;
      }
    }
  }

  lemma {:induction false} BoundaryGrows(codec: Codec, text: seq<Scalar>, j: nat, k: nat)
    requires j <= k <= |text|
    ensures Boundary(codec, text, j) <= Boundary(codec, text, k)
    ensures j < k ==> Boundary(codec, text, j) < Boundary(codec, text, k)
    decreases j
  {
    if j == 0 {
      assert text[..0] == [];
      if k > 0 {
        BoundaryStep(codec, text, k);
      }
    } else {
      BoundaryStep(codec, text, j);
      BoundaryStep(codec, text, k);
      BoundaryGrows(codec, text[1..], j - 1, k - 1);
    }
  }

  /** Later offsets convert to later offsets. */
  lemma ConvertIncreases(text: seq<Scalar>, a: int, b: int, source: Codec, target: Codec)
    requires a < b && ConvertInLine(text, a, source, target).Some? && ConvertInLine(text, b, source, target).Some?
    ensures ConvertInLine(text, a, source, target).value < ConvertInLine(text, b, source, target).value
  {
    var m, n := ConvertInLine(text, a, source, target).value, ConvertInLine(text, b, source, target).value;
    ConvertExactly(text, a, source, target, m);
    ConvertExactly(text, b, source, target, n);
    var j :| 0 <= j <= |text| && Boundary(source, text, j) == a && Boundary(target, text, j) == m;
    var k :| 0 <= k <= |text| && Boundary(source, text, k) == b && Boundary(target, text, k) == n;
    if k <= j {
      BoundaryGrows(source, text, k, j);
    }
    BoundaryGrows(target, text, j, k);
  }

  /** Converting there and back gives the offset back. */
  lemma ConvertRoundTrip(text: seq<Scalar>, a: int, source: Codec, target: Codec)
    requires ConvertInLine(text, a, source, target).Some?
    ensures ConvertInLine(text, ConvertInLine(text, a, source, target).value, target, source) == Some(a)
  {
    var n := ConvertInLine(text, a, source, target).value;
    ConvertExactly(text, a, source, target, n);
    ConvertExactly(text, n, target, source, a);
  }

  // ---------------------------------------------------------------- lines

  const CR: Scalar := 13
  const LF: Scalar := 10

  function ReplaceCrLf(text: seq<Scalar>): seq<Scalar>
  {
    if text == [] then []
    else if |text| >= 2 && text[0] == CR && text[1] == LF then [LF] + ReplaceCrLf(text[2..])
    else [text[0]] + ReplaceCrLf(text[1..])
  }

  function ReplaceCr(text: seq<Scalar>): seq<Scalar>
  {
    if text == [] then [] else [if text[0] == CR then LF else text[0]] + ReplaceCr(text[1..])
  }

  /** `split` at every line feed: always at least one line. */
  function SplitLf(text: seq<Scalar>): (lines: seq<seq<Scalar>>)
    ensures lines != []
  {
    if text == [] then [[]]
    else
      var rest := SplitLf(text[1..]);
      if text[0] == LF then [[]] + rest else [[text[0]] + rest[0]] + rest[1..]
  }

  /** `_lines`. */
  function Lines(text: seq<Scalar>): (lines: seq<seq<Scalar>>)
    ensures lines != []
  {
    SplitLf(ReplaceCr(ReplaceCrLf(text)))
  }

  /** A line ends at CRLF, at a lone CR or at LF, read from the left. */
  function BreakLines(text: seq<Scalar>): (lines: seq<seq<Scalar>>)
    ensures lines != []
  {
    if text == [] then [[]]
    else if |text| >= 2 && text[0] == CR && text[1] == LF then [[]] + BreakLines(text[2..])
    else if text[0] == CR || text[0] == LF then [[]] + BreakLines(text[1..])
    else
      var rest := BreakLines(text[1..]);
      [[text[0]] + rest[0]] + rest[1..]
  }

  /** The two replacements and the split amount to reading line breaks from the left. */
  lemma {:induction false} LinesBreak(text: seq<Scalar>)
    ensures Lines(text) == BreakLines(text)
    decreases |text|
  {
    if text != [] {
      var width := if |text| >= 2 && text[0] == CR && text[1] == LF then 2 else 1;
      LinesBreak(text[width..]);
      var replaced := ReplaceCrLf(text);
      assert replaced[1..] == ReplaceCrLf(text[width..]);
      assert ReplaceCr(replaced)[1..] == ReplaceCr(replaced[1..]);
    }
  }

  lemma {:induction false} LinesHoldNoBreaks(text: seq<Scalar>)
    ensures forall line :: line in BreakLines(text) ==> CR !in line && LF !in line
    decreases |text|
  {
    if text != [] {
      if |text| >= 2 && text[0] == CR && text[1] == LF {
        LinesHoldNoBreaks(text[2..]);
      } else {
        LinesHoldNoBreaks(text[1..]);
        assert BreakLines(text[1..])[0] in BreakLines(text[1..]);
        assert forall line :: line in BreakLines(text[1..])[1..] ==> line in BreakLines(text[1..]);
      }
    }
  }

  // ---------------------------------------------------------------- positions and ranges

  datatype Position = Position(line: int, character: int)

  predicate AtOrBefore(a: Position, b: Position)
  {
    a.line < b.line || (a.line == b.line && a.character <= b.character)
  }

  /** `_convert`. */
  function Convert(text: seq<Scalar>, p: Position, source: Codec, target: Codec): Option<Position>
  {
    if p.line < 0 || p.character < 0 || |Lines(text)| <= p.line then None
    else
      match ConvertInLine(Lines(text)[p.line], p.character, source, target)
      case None => None
      case Some(n) => Some(Position(p.line, n))
  }

  /** `_range`: both ends in UTF-8, refused when they come out in the wrong order. */
  function Range(text: seq<Scalar>, start: Position, end: Position, encoding: Codec): Option<(Position, Position)>
  {
    var from, to := Convert(text, start, encoding, Utf8), Convert(text, end, encoding, Utf8);
    if from.None? || to.None? || !AtOrBefore(from.value, to.value) then None else Some((from.value, to.value))
  }

  /** A range is accepted exactly when both ends are convertible and given in order, and its ends convert back. */
  lemma RangeExactly(text: seq<Scalar>, start: Position, end: Position, encoding: Codec)
    ensures Range(text, start, end, encoding).Some?
       <==> && Convert(text, start, encoding, Utf8).Some? && Convert(text, end, encoding, Utf8).Some?
            && AtOrBefore(start, end)
    ensures Range(text, start, end, encoding).Some? ==>
              var r := Range(text, start, end, encoding).value;
              AtOrBefore(r.0, r.1) && Convert(text, r.0, Utf8, encoding) == Some(start) && Convert(text, r.1, Utf8, encoding) == Some(end)
  {
    if Convert(text, start, encoding, Utf8).Some? && Convert(text, end, encoding, Utf8).Some? {
      ConvertRoundTrip(Lines(text)[start.line], start.character, encoding, Utf8);
      ConvertRoundTrip(Lines(text)[end.line], end.character, encoding, Utf8);
      if start.line == end.line && start.character < end.character {
        ConvertIncreases(Lines(text)[start.line], start.character, end.character, encoding, Utf8);
      }
      if start.line == end.line && end.character < start.character {
        ConvertIncreases(Lines(text)[start.line], end.character, start.character, encoding, Utf8);
      }
    }
  }
}
