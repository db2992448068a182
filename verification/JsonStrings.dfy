/**
 JSON string tokens (RFC 8259, section 7): how a token body decodes, how `json.dumps` writes one, and what the
 two of them, one after the other, do to an arbitrary Python string.
 */
module JsonStrings {
  import opened Text

  predicate IsHigh(c: int) {
    0xD800 <= c <= 0xDBFF
  }

  predicate IsLow(c: int) {
    0xDC00 <= c <= 0xDFFF
  }

  function Join(high: Code, low: Code): Code
    requires IsHigh(high) && IsLow(low)
  {
    0x10000 + (high - 0xD800) * 0x400 + (low - 0xDC00)
  }

  function HexValue(c: Code): (v: Option<nat>)
    ensures v.Some? ==> v.value < 16 && c != QUOTE && c != BACKSLASH
  {
    if 48 <= c <= 57 then Some(c - 48)
    else if 97 <= c <= 102 then Some(c - 87)
    else if 65 <= c <= 70 then Some(c - 55)
    else None
  }

  /** The four hexadecimal digits of a `\u` escape whose first digit is at `i`. */
  function Hex4(b: Text, i: nat): (v: Option<Code>)
    requires i + 4 <= |b|
  {
    var d0, d1, d2, d3 := HexValue(b[i]), HexValue(b[i + 1]), HexValue(b[i + 2]), HexValue(b[i + 3]);
    if d0.Some? && d1.Some? && d2.Some? && d3.Some?
    then Some(d0.value * 4096 + d1.value * 256 + d2.value * 16 + d3.value)
    else None
  }

  /** The code point a `\uXXXX` escape at offset `i` of `b` spells, if one stands there. */
  function UnicodeEscape(b: Text, i: nat): Option<Code> {
    if i + 6 <= |b| && b[i] == BACKSLASH && b[i + 1] == LOWER_U then Hex4(b, i + 2) else None
  }

  function SimpleEscape(c: Code): Option<Code> {
    if c == QUOTE || c == BACKSLASH || c == SLASH then Some(c)
    else if c == 98 then Some(8)
    else if c == 102 then Some(12)
    else if c == 110 then Some(10)
    else if c == 114 then Some(13)
    else if c == 116 then Some(9)
    else None
  }

  /** One decoded character: the number of raw code points it takes and the code point it means. */
  datatype Unit = Unit(width: nat, code: Code)

  /** The first character of a token body; a surrogate pair of escapes is a single character. */
  function FirstUnit(b: Text): (u: Option<Unit>)
    ensures u.Some? ==> 0 < u.value.width <= |b|
  {
    if b == [] || b[0] == QUOTE || b[0] < 32 then None
    else if b[0] != BACKSLASH then Some(Unit(1, b[0]))
    else if |b| == 1 then None
    else if b[1] != LOWER_U then
      (match SimpleEscape(b[1]) case Some(c) => Some(Unit(2, c)) case None => None)
    else
      match UnicodeEscape(b, 0)
      case None => None
      case Some(c) =>
        var next := UnicodeEscape(b, 6);
        if IsHigh(c) && next.Some? && IsLow(next.value) then Some(Unit(12, Join(c, next.value)))
        else Some(Unit(6, c))
  }

  /** The decoded string of a token body, or `None` when `json.loads` rejects it. */
  function Decode(b: Text): (r: Option<Text>)
    decreases |b|
  {
    if b == [] then Some([])
    else
      match FirstUnit(b)
      case None => None
      case Some(u) =>
        match Decode(b[u.width..])
        case None => None
        case Some(rest) => Some([u.code] + rest)
  }

  function Quoted(body: Text): Text {
    [QUOTE] + body + [QUOTE]
  }

  // ---- Finding the end of a token ----------------------------------------------------------

  /** One past the closing quote that the source's character loop finds from `j`. */
  function StringEnd(s: Text, j: nat): (e: Option<nat>)
    ensures e.Some? ==> j < e.value <= |s| && s[e.value - 1] == QUOTE
    decreases |s| - j
  {
    if j >= |s| then None
    else if s[j] == BACKSLASH then StringEnd(s, j + 2)
    else if s[j] == QUOTE then Some(j + 1)
    else StringEnd(s, j + 1)
  }

  lemma {:induction false} FourDigitsHideNoQuote(s: Text, j: nat)
    requires j + 4 <= |s| && Hex4(s, j).Some?
    ensures StringEnd(s, j) == StringEnd(s, j + 4)
  {
    assert StringEnd(s, j) == StringEnd(s, j + 1) == StringEnd(s, j + 2);
    assert StringEnd(s, j + 2) == StringEnd(s, j + 3) == StringEnd(s, j + 4);
  }

  lemma Hex4Shift(s: Text, j: nat, b: Text, k: nat)
    requires j + |b| <= |s| && s[j..j + |b|] == b && k + 4 <= |b|
    ensures Hex4(s, j + k) == Hex4(b, k)
  {
    assert b == s[j..j + |b|];
  }

  /** A well-formed character never hides or fakes the closing quote. */
  lemma {:induction false} UnitSkipped(s: Text, j: nat, b: Text)
    requires j + |b| <= |s| && s[j..j + |b|] == b && FirstUnit(b).Some?
    ensures StringEnd(s, j) == StringEnd(s, j + FirstUnit(b).value.width)
  {
    assert s[j..j + |b|][0] == s[j];
    var w := FirstUnit(b).value.width;
    if w >= 6 {
      assert s[j..j + |b|][6 - 6] == s[j];
      assert StringEnd(s, j) == StringEnd(s, j + 2);
      Hex4Shift(s, j, b, 2);
      FourDigitsHideNoQuote(s, j + 2);
      if w == 12 {
        assert s[j..j + |b|][6] == s[j + 6];
        assert StringEnd(s, j + 6) == StringEnd(s, j + 8);
        Hex4Shift(s, j, b, 8);
        FourDigitsHideNoQuote(s, j + 8);
      }
    }
  }

  /** The loop stops exactly at the closing quote of a decodable token. */
  lemma {:induction false} StringEndAt(s: Text, j: nat, body: Text)
    requires At(s, j, body + [QUOTE]) && Decode(body).Some?
    ensures StringEnd(s, j) == Some(j + |body| + 1)
    decreases |body|
  {
    AtAppend(s, j, body, [QUOTE]);
    if body != [] {
      var w := FirstUnit(body).value.width;
      AtIsSlice(s, j, body);
      UnitSkipped(s, j, body);
      assert body + [QUOTE] == body[..w] + (body[w..] + [QUOTE]);
      AtAppend(s, j, body[..w], body[w..] + [QUOTE]);
      StringEndAt(s, j + w, body[w..]);
    }
  }

  // ---- Writing a string: json.dumps --------------------------------------------------------

  function HexDigit(n: nat): (c: Code)
    requires n < 16
    ensures HexValue(c) == Some(n)
  {
    if n < 10 then 48 + n else 87 + n
  }

  function WriteEscape(c: nat): (t: Text)
    requires c < 0x10000
    ensures |t| == 6
  {
    [BACKSLASH, LOWER_U, HexDigit(c / 4096), HexDigit(c / 256 % 16), HexDigit(c / 16 % 16), HexDigit(c % 16)]
  }

  lemma FourDigits(c: nat)
    requires c < 0x10000
    ensures c / 4096 < 16
    ensures c / 4096 * 4096 + c / 256 % 16 * 256 + c / 16 % 16 * 16 + c % 16 == c
  {
    assert c / 256 == c / 4096 * 16 + c / 256 % 16;
    assert c / 16 == c / 256 * 16 + c / 16 % 16;
  }

  function HighHalf(c: Code): (h: Code)
    requires c >= 0x10000
    ensures IsHigh(h)
  {
    0xD800 + (c - 0x10000) / 0x400
  }

  function LowHalf(c: Code): (l: Code)
    requires c >= 0x10000
    ensures IsLow(l)
  {
    0xDC00 + (c - 0x10000) % 0x400
  }

  function WriteCode(c: Code, ascii: bool): (t: Text)
    ensures t != []
  {
    if c == QUOTE || c == BACKSLASH then [BACKSLASH, c]
    else if c == 8 then [BACKSLASH, 98]
    else if c == 12 then [BACKSLASH, 102]
    else if c == 10 then [BACKSLASH, 110]
    else if c == 13 then [BACKSLASH, 114]
    else if c == 9 then [BACKSLASH, 116]
    else if c < 32 then WriteEscape(c)
    else if !ascii || c <= 126 then [c]
    else if c < 0x10000 then WriteEscape(c)
    else WriteEscape(HighHalf(c)) + WriteEscape(LowHalf(c))
  }

  function WriteBody(s: Text, ascii: bool): Text {
    if s == [] then [] else WriteCode(s[0], ascii) + WriteBody(s[1..], ascii)
  }

  /** What a reader makes of two escapes that happen to form a surrogate pair. */
  function JoinPairs(s: Text): (r: Text)
    decreases |s|
  {
    if |s| < 2 then s
    else if IsHigh(s[0]) && IsLow(s[1]) then [Join(s[0], s[1])] + JoinPairs(s[2..])
    else [s[0]] + JoinPairs(s[1..])
  }

  predicate HasPair(s: Text) {
    exists k :: 0 <= k < |s| - 1 && IsHigh(s[k]) && IsLow(s[k + 1])
  }

  lemma WrittenEscape(c: nat, rest: Text)
    requires c < 0x10000
    ensures UnicodeEscape(WriteEscape(c) + rest, 0) == Some(c)
    ensures UnicodeEscape(WriteEscape(c) + rest, 6) == UnicodeEscape(rest, 0)
  {
    var t := WriteEscape(c);
    var b := t + rest;
    FourDigits(c);
    assert b[2] == t[2] && b[3] == t[3] && b[4] == t[4] && b[5] == t[5];
    if |rest| >= 6 {
      assert b[8] == rest[2] && b[9] == rest[3] && b[10] == rest[4] && b[11] == rest[5];
    }
  }

  /** Only a low surrogate is ever written as an escape of a low surrogate in first position. */
  lemma WrittenLow(c: Code, rest: Text, ascii: bool)
    ensures var e := UnicodeEscape(WriteCode(c, ascii) + rest, 0);
            e.Some? && IsLow(e.value) <==> ascii && IsLow(c)
    ensures ascii && IsLow(c) ==> UnicodeEscape(WriteCode(c, ascii) + rest, 0) == Some(c)
    ensures ascii && (IsLow(c) || IsHigh(c)) ==> |WriteCode(c, ascii)| == 6
  {
    var t := WriteCode(c, ascii);
    if |t| == 6 {
      WrittenEscape(c, rest);
    } else if |t| == 12 {
      assert t + rest == WriteEscape(HighHalf(c)) + (WriteEscape(LowHalf(c)) + rest);
      WrittenEscape(HighHalf(c), WriteEscape(LowHalf(c)) + rest);
    } else {
      assert (t + rest)[0] == t[0];
      assert |t| == 2 ==> (t + rest)[1] == t[1];
    }
  }

  lemma ReadBackPair(c: Code, rest: Text)
    requires c >= 0x10000
    ensures FirstUnit(WriteCode(c, true) + rest) == Some(Unit(12, c))
  {
    var low := WriteEscape(LowHalf(c)) + rest;
    assert WriteCode(c, true) + rest == WriteEscape(HighHalf(c)) + low;
    WrittenEscape(HighHalf(c), low);
    WrittenEscape(LowHalf(c), rest);
  }

  lemma ReadBackEscape(c: Code, rest: Text)
    requires c < 0x10000
    ensures var next := UnicodeEscape(rest, 0);
            FirstUnit(WriteEscape(c) + rest) ==
            Some(if IsHigh(c) && next.Some? && IsLow(next.value) then Unit(12, Join(c, next.value)) else Unit(6, c))
  {
    WrittenEscape(c, rest);
  }

  lemma ReadBack(c: Code, rest: Text, ascii: bool)
    ensures var t := WriteCode(c, ascii);
            var next := UnicodeEscape(rest, 0);
            FirstUnit(t + rest) ==
            Some(if ascii && IsHigh(c) && next.Some? && IsLow(next.value)
                 then Unit(12, Join(c, next.value)) else Unit(|t|, c))
  {
    var t := WriteCode(c, ascii);
    if |t| == 6 {
      ReadBackEscape(c, rest);
    } else if |t| == 12 {
      ReadBackPair(c, rest);
    } else {
      assert (t + rest)[0] == t[0];
      assert |t| == 2 ==> (t + rest)[1] == t[1];
    }
  }

  /** Reading what `json.dumps` wrote gives the string back, except that ASCII mode joins pairs. */
  lemma {:induction false} DecodeWritten(s: Text, ascii: bool)
    ensures Decode(WriteBody(s, ascii)) == Some(if ascii then JoinPairs(s) else s)
    decreases |s|
  {
    if s != [] {
      var t, rest := WriteCode(s[0], ascii), WriteBody(s[1..], ascii);
      ReadBack(s[0], rest, ascii);
      if |s| >= 2 {
        WrittenLow(s[1], WriteBody(s[2..], ascii), ascii);
        assert s[1..][1..] == s[2..];
      }
      if ascii && |s| >= 2 && IsHigh(s[0]) && IsLow(s[1]) {
        var low := WriteCode(s[1], ascii);
        assert |t| == 6 && |low| == 6;
        assert (t + rest)[12..] == rest[6..] == WriteBody(s[2..], ascii);
        DecodeWritten(s[2..], ascii);
      } else {
        assert (t + rest)[|t|..] == rest;
        DecodeWritten(s[1..], ascii);
        assert s == [s[0]] + s[1..];
      }
    }
  }

  lemma {:induction false} JoinPairsShrinks(s: Text)
    ensures |JoinPairs(s)| <= |s|
    ensures JoinPairs(s) == s <==> !HasPair(s)
    ensures HasPair(s) ==> |JoinPairs(s)| < |s|
    decreases |s|
  {
    if |s| >= 2 {
      if IsHigh(s[0]) && IsLow(s[1]) {
        JoinPairsShrinks(s[2..]);
        assert HasPair(s);
      } else {
        JoinPairsShrinks(s[1..]);
        if HasPair(s[1..]) {
          var k :| 0 <= k < |s[1..]| - 1 && IsHigh(s[1..][k]) && IsLow(s[1..][k + 1]);
          assert IsHigh(s[k + 1]) && IsLow(s[k + 1 + 1]);
        } else if HasPair(s) {
          var k :| 0 <= k < |s| - 1 && IsHigh(s[k]) && IsLow(s[k + 1]);
          assert IsHigh(s[1..][k - 1]) && IsLow(s[1..][k - 1 + 1]);
        }
      }
    }
  }

  /** The exact condition under which a string survives `json.dumps` followed by `json.loads`. */
  lemma StringRoundTrip(s: Text, ascii: bool)
    ensures Decode(WriteBody(s, ascii)).Some?
    ensures Decode(WriteBody(s, ascii)) == Some(s) <==> !(ascii && HasPair(s))
  {
    DecodeWritten(s, ascii);
    JoinPairsShrinks(s);
  }
}
