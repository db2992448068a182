/**
 The rewriting loops as the source runs them, with spans of raw text, cursors into it and the pieces they
 collect, against the definitions of `IdentifierBase`.
 */
module IdentifierRewriter {
  import opened Text
  import opened JsonStrings
  import opened JsonGrammar
  import opened IdentifierText
  import opened IdentifierTokens
  import opened IdentifierBase

  // ---- The raw offset of each decoded character ---------------------------------------------------------

  /** Where the `k`-th character of the token body starts. */
  function UnitStart(b: Text, k: nat): (o: nat)
    requires Decode(b).Some? && k <= |Decode(b).value|
    ensures o <= |b|
    decreases k
  {
    if k == 0 then 0
    else
      DecodeStep(b);
      FirstUnit(b).value.width + UnitStart(b[FirstUnit(b).value.width..], k - 1)
  }

  lemma {:induction false} TailDecodes(b: Text, k: nat)
    requires Decode(b).Some? && k <= |Decode(b).value|
    ensures Decode(b[UnitStart(b, k)..]) == Some(Decode(b).value[k..])
    decreases k
  {
    hide Decode, FirstUnit;
    var s := Decode(b).value;
    if k == 0 {
      assert b[0..] == b && s[0..] == s;
    } else {
      NothingDecodes();
      DecodeStep(b);
      var w := FirstUnit(b).value.width;
      TailDecodes(b[w..], k - 1);
      assert b[w..][UnitStart(b[w..], k - 1)..] == b[UnitStart(b, k)..];
      assert s[1..][k - 1..] == s[k..];
    }
  }

  /** One more character. */
  lemma {:induction false} NextUnit(b: Text, k: nat)
    requires Decode(b).Some? && k < |Decode(b).value|
    ensures UnitStart(b, k) < |b| && FirstUnit(b[UnitStart(b, k)..]).Some?
    ensures UnitStart(b, k + 1) == UnitStart(b, k) + FirstUnit(b[UnitStart(b, k)..]).value.width
    ensures Decode(b).value[k] == FirstUnit(b[UnitStart(b, k)..]).value.code
    decreases k
  {
    hide Decode, FirstUnit;
    NothingDecodes();
    DecodeStep(b);
    if k == 0 {
      assert b[0..] == b;
    } else {
      var w := FirstUnit(b).value.width;
      NextUnit(b[w..], k - 1);
      assert b[w..][UnitStart(b[w..], k - 1)..] == b[UnitStart(b, k)..];
    }
  }

  lemma AllUnits(b: Text)
    requires Decode(b).Some?
    ensures UnitStart(b, |Decode(b).value|) == |b|
  {
    hide FirstUnit, UnitStart;
    var n := |Decode(b).value|;
    TailDecodes(b, n);
    var rest := b[UnitStart(b, n)..];
    if rest != [] {
      DecodeStep(rest);
    }
  }

  lemma {:induction false} MatchEnds(b: Text, k: nat, t: Text)
    requires Decode(b).Some? && k <= |Decode(b).value|
    requires MatchWidth(b[UnitStart(b, k)..], t).Some?
    ensures k + |t| <= |Decode(b).value|
    ensures UnitStart(b, k + |t|) == UnitStart(b, k) + MatchWidth(b[UnitStart(b, k)..], t).value
    decreases |t|
  {
    hide Decode, FirstUnit, UnitStart;
    var rest := b[UnitStart(b, k)..];
    TailDecodes(b, k);
    MatchIsLead(rest, t);
    if t != [] {
      NextUnit(b, k);
      assert rest[FirstUnit(rest).value.width..] == b[UnitStart(b, k + 1)..];
      MatchEnds(b, k + 1, t[1..]);
    }
  }

  // ---- Searching ----------------------------------------------------------------------------------------

  /** `s.find(OLD, from)`. */
  function Find(s: Text, from: nat): (m: Option<nat>)
    requires from <= |s|
    ensures m.Some? ==> from <= m.value <= |s| && StartsOld(s[m.value..])
    decreases |s| - from
  {
    if StartsOld(s[from..]) then Some(from) else if from == |s| then None else Find(s, from + 1)
  }

  /** A character at which no match starts is copied. */
  lemma CopiedUnit(b: Text, k: nat)
    requires Decode(b).Some? && k < |Decode(b).value| && !StartsOld(Decode(b).value[k..])
    ensures UnitStart(b, k) <= UnitStart(b, k + 1)
    ensures RewriteBody(b[UnitStart(b, k)..]) ==
            b[UnitStart(b, k)..UnitStart(b, k + 1)] + RewriteBody(b[UnitStart(b, k + 1)..])
  {
    hide Decode, FirstUnit, UnitStart, MatchWidth, OLD;
    var x, y := UnitStart(b, k), UnitStart(b, k + 1);
    TailDecodes(b, k);
    MatchIsLead(b[x..], OLD);
    NextUnit(b, k);
    assert b[x..][y - x..] == b[y..];
    assert b[x..][..y - x] == b[x..y];
  }

  lemma Joined(b: Text, x: nat, y: nat, z: nat, rest: Text)
    requires x <= y <= z <= |b|
    ensures b[x..y] + (b[y..z] + rest) == b[x..z] + rest
  {
    assert b[x..z] == b[x..y] + b[y..z];
  }

  /** Up to the next match the raw text is copied. */
  lemma {:induction false} CopiedUpTo(b: Text, from: nat, upTo: nat)
    requires Decode(b).Some? && from <= upTo <= |Decode(b).value|
    requires Find(Decode(b).value, from) == (if upTo == |Decode(b).value| then None else Some(upTo))
    ensures UnitStart(b, from) <= UnitStart(b, upTo)
    ensures RewriteBody(b[UnitStart(b, from)..]) ==
            b[UnitStart(b, from)..UnitStart(b, upTo)] + RewriteBody(b[UnitStart(b, upTo)..])
    decreases upTo - from
  {
    hide Decode, FirstUnit, UnitStart, MatchWidth, OLD, RewriteBody;
    if from < upTo {
      CopiedUnit(b, from);
      CopiedUpTo(b, from + 1, upTo);
      Joined(b, UnitStart(b, from), UnitStart(b, from + 1), UnitStart(b, upTo), RewriteBody(b[UnitStart(b, upTo)..]));
    } else {
      assert b[UnitStart(b, from)..UnitStart(b, from)] == [];
    }
  }

  /** No further match, no further change. */
  lemma RestCopied(b: Text, from: nat)
    requires Decode(b).Some? && from <= |Decode(b).value| && Find(Decode(b).value, from).None?
    ensures RewriteBody(b[UnitStart(b, from)..]) == b[UnitStart(b, from)..]
  {
    hide Decode, FirstUnit, UnitStart, MatchWidth, OLD;
    CopiedUpTo(b, from, |Decode(b).value|);
    AllUnits(b);
    EmptyBody();
    assert b[|b|..] == [];
  }

  lemma EmptyBody()
    ensures RewriteBody([]) == []
  {
  }

  // ---- The loops --------------------------------------------------------------------------------------------

  /** The width of the character at `index`, by the source's case analysis. */
  method UnitAt(raw: Text, index: nat) returns (width: nat)
    requires index < |raw| && FirstUnit(raw[index..]).Some?
    ensures width == FirstUnit(raw[index..]).value.width
  {
    var b := raw[index..];
    assert forall k :: 0 <= k < |b| ==> b[k] == raw[index + k];
    if raw[index] != BACKSLASH {
      return 1;
    }
    if raw[index + 1] != LOWER_U {
      return 2;
    }
    var codepoint := Hex4(raw, index + 2).value;
    if IsHigh(codepoint) && index + 12 <= |raw| && raw[index + 6] == BACKSLASH && raw[index + 7] == LOWER_U {
      var low := Hex4(raw, index + 8);
      if low.Some? && IsLow(low.value) {
        return 12;
      }
    }
    return 6;
  }

  /** The decoded characters of a token body and the raw span of each. */
  method Spans(raw: Text) returns (semantic: Text, spans: seq<(nat, nat)>)
    requires Decode(raw).Some?
    ensures semantic == Decode(raw).value && |spans| == |semantic|
    ensures forall k :: 0 <= k < |spans| ==> spans[k] == (UnitStart(raw, k), UnitStart(raw, k + 1))
  {
    hide Decode, FirstUnit, UnitStart;
    ghost var all := Decode(raw).value;
    semantic, spans := [], [];
    var index := 0;
    StartOfUnits(raw);
    AllUnits(raw);
    while index < |raw|
      invariant |semantic| == |spans| <= |all| && semantic == all[..|semantic|]
      invariant index == UnitStart(raw, |semantic|) <= |raw|
      invariant forall k :: 0 <= k < |spans| ==> spans[k] == (UnitStart(raw, k), UnitStart(raw, k + 1))
      decreases |raw| - index
    {
      var start := index;
      NextUnit(raw, |semantic|);
      var width := UnitAt(raw, index);
      var character := FirstUnit(raw[start..]).value.code;
      index := index + width;
      semantic := semantic + [character];
      spans := spans + [(start, index)];
    }
    if |semantic| < |all| {
      NextUnit(raw, |semantic|);
      assert false;
    }
  }

  lemma StartOfUnits(raw: Text)
    requires Decode(raw).Some?
    ensures UnitStart(raw, 0) == 0
  {
  }

  lemma CountFinds(s: Text)
    ensures Count(s) == 0 <==> Find(s, 0).None?
  {
    hide OLD, NEW;
    CountFrom(s, 0);
    assert s[0..] == s;
  }

  lemma {:induction false} CountFrom(s: Text, i: nat)
    requires i <= |s|
    ensures Count(s[i..]) == 0 <==> Find(s, i).None?
    decreases |s| - i
  {
    hide OLD, NEW;
    OldLetters();
    if i < |s| && !StartsOld(s[i..]) {
      CountFrom(s, i + 1);
      assert s[i..][1..] == s[i + 1..];
    }
  }

  /** `_replace_json_string_token`. */
  method ReplaceToken(token: Text) returns (r: Text, count: nat)
    requires IsQuoted(token) && Decode(token[1..|token| - 1]).Some?
    ensures r == RewriteToken(token) && count == CountToken(token)
  {
    hide Decode, FirstUnit, UnitStart, MatchWidth, Count, RewriteBody, OLD, NEW;
    OldLetters();
    var raw := token[1..|token| - 1];
    var semantic, spans := Spans(raw);
    count := Count(semantic);
    CountFinds(semantic);
    if count == 0 {
      ClosedToken(token);
      return token, 0;
    }
    var pieces: Text := [];
    var rawCursor: nat, semanticCursor: nat := 0, 0;
    StartOfUnits(raw);
    assert raw[0..] == raw;
    var found := Find(semantic, semanticCursor);
    while found.Some?
      invariant semanticCursor <= |semantic| && found == Find(semantic, semanticCursor)
      invariant rawCursor == UnitStart(raw, semanticCursor) <= |raw|
      invariant RewriteBody(raw) == pieces + RewriteBody(raw[rawCursor..])
      decreases |semantic| - semanticCursor
    {
      var m := found.value;
      CopiedUpTo(raw, semanticCursor, m);
      AtMatch(raw, m);
      var rawStart := spans[m].0;
      var rawEnd := spans[m + |OLD| - 1].1;
      assert spans[m] == (UnitStart(raw, m), UnitStart(raw, m + 1));
      var last := m + |OLD| - 1;
      assert spans[last] == (UnitStart(raw, last), UnitStart(raw, last + 1));
      assert rawEnd == UnitStart(raw, m + |OLD|);
      Appended(pieces, raw[rawCursor..rawStart], RewriteBody(raw[rawEnd..]));
      pieces := pieces + raw[rawCursor..rawStart] + NEW;
      rawCursor := rawEnd;
      semanticCursor := m + |OLD|;
      found := Find(semantic, semanticCursor);
    }
    RestCopied(raw, semanticCursor);
    pieces := pieces + raw[rawCursor..];
    return Quoted(pieces), count;
  }

  lemma Appended(pieces: Text, copied: Text, rest: Text)
    ensures pieces + (copied + (NEW + rest)) == pieces + copied + NEW + rest
  {
  }

  lemma AtMatch(b: Text, m: nat)
    requires Decode(b).Some? && m <= |Decode(b).value| && StartsOld(Decode(b).value[m..])
    ensures m + |OLD| <= |Decode(b).value|
    ensures RewriteBody(b[UnitStart(b, m)..]) == NEW + RewriteBody(b[UnitStart(b, m + |OLD|)..])
  {
    hide Decode, FirstUnit, UnitStart, OLD, NEW;
    OldLetters();
    var rest := b[UnitStart(b, m)..];
    TailDecodes(b, m);
    MatchIsLead(rest, OLD);
    MatchEnds(b, m, OLD);
    NothingDecodes();
    assert rest[MatchWidth(rest, OLD).value..] == b[UnitStart(b, m + |OLD|)..];
  }

  method FindEnd(s: Text, j: nat) returns (e: Option<nat>)
    ensures e == StringEnd(s, j)
  {
    var end := j;
    while end < |s| && s[end] != QUOTE
      invariant StringEnd(s, j) == StringEnd(s, end)
      decreases |s| - end
    {
      end := if s[end] == BACKSLASH then end + 2 else end + 1;
    }
    return if end < |s| then Some(end + 1) else None;
  }

  /** `_replace_json_string_tokens`, on the text of a JSON document. */
  method ReplaceTokens(text: Text) returns (out: Text, replacements: nat)
    ensures out == Rewrite(text, 0) && replacements == CountText(text, 0)
    ensures forall root, d :: DerivesDocument(text, root, d) ==>
              DerivesDocument(out, Rewritten(text, root), d) && replacements == CountNode(root)
  {
    hide Rewrite, CountText, DerivesDocument, Rewritten, CountNode;
    out, replacements := RewriteTokens(text);
    forall root, d | DerivesDocument(text, root, d)
      ensures DerivesDocument(Rewrite(text, 0), Rewritten(text, root), d) && CountText(text, 0) == CountNode(root)
    {
      DocumentRewritten(text, root, d);
    }
  }

  /** The loop, on any text. */
  method RewriteTokens(text: Text) returns (out: Text, replacements: nat)
    ensures out == Rewrite(text, 0) && replacements == CountText(text, 0)
  {
    hide StringEnd, RewriteToken, CountToken;
    var chunks: Text := [];
    var cursor: nat, index: nat := 0, 0;
    replacements := 0;
    while index < |text|
      invariant cursor <= index <= |text|
      invariant Rewrite(text, 0) == chunks + text[cursor..index] + Rewrite(text, index)
      invariant CountText(text, 0) == replacements + CountText(text, index)
      decreases |text| - index
    {
      if text[index] != QUOTE {
        Grow(text, chunks, cursor, index, index + 1, [text[index]], Rewrite(text, index + 1));
        index := index + 1;
      } else {
        var end := FindEnd(text, index + 1);
        if end.None? {
          break;
        }
        CutSlice(text, index, end.value);
        var token, tokenReplacements := MaybeReplace(text[index..end.value]);
        if tokenReplacements != 0 {
          Seam(text, chunks, cursor, index, end.value, token, Rewrite(text, end.value));
          chunks := chunks + text[cursor..index] + token;
          cursor := end.value;
          replacements := replacements + tokenReplacements;
        } else {
          ClosedToken(text[index..end.value]);
          Grow(text, chunks, cursor, index, end.value, token, Rewrite(text, end.value));
        }
        index := end.value;
      }
    }
    Finish(text, chunks, cursor, index);
    out := chunks + text[cursor..];
  }

  method MaybeReplace(token: Text) returns (r: Text, count: nat)
    requires IsQuoted(token)
    ensures r == RewriteToken(token) && count == CountToken(token)
  {
    hide RewriteBody, Count;
    if Decode(token[1..|token| - 1]).None? {
      return token, 0;
    }
    r, count := ReplaceToken(token);
  }

  lemma Grow(text: Text, chunks: Text, cursor: nat, i: nat, j: nat, piece: Text, rest: Text)
    requires cursor <= i <= j <= |text| && piece == text[i..j]
    ensures chunks + text[cursor..i] + (piece + rest) == chunks + text[cursor..j] + rest
  {
    assert text[cursor..j] == text[cursor..i] + text[i..j];
  }

  lemma Seam(text: Text, chunks: Text, cursor: nat, i: nat, j: nat, piece: Text, rest: Text)
    requires cursor <= i <= j <= |text|
    ensures chunks + text[cursor..i] + (piece + rest) == (chunks + text[cursor..i] + piece) + text[j..j] + rest
  {
  }

  lemma Finish(text: Text, chunks: Text, cursor: nat, index: nat)
    requires cursor <= index <= |text|
    requires index == |text| || (text[index] == QUOTE && StringEnd(text, index + 1).None?)
    ensures chunks + text[cursor..index] + Rewrite(text, index) == chunks + text[cursor..]
    ensures CountText(text, index) == 0
  {
    assert text[cursor..] == text[cursor..index] + text[index..];
    assert text[|text|..] == [];
  }
}
