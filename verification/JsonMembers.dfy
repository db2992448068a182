/**
 Adding a member to an object's text just before its closing brace: what exactly is inserted, with its
 line breaks and the indentation taken from the brace, and the proof that the longer text derives the
 object with that member appended, wherever the object stands and whatever is in it.
 */
module JsonMembers {
  import opened Text
  import opened JsonStrings
  import opened JsonNumbers
  import opened JsonGrammar
  import opened JsonValues
  import opened JsonLocality
  import opened JsonDumps

  // ---- The inserted text ---------------------------------------------------------------------------

  /** The characters `str.strip` removes. */
  predicate IsPySpace(c: Code) {
    || 9 <= c <= 13 || 28 <= c <= 32 || c == 0x85 || c == 0xA0 || c == 0x1680 || 0x2000 <= c <= 0x200A
    || c == 0x2028 || c == 0x2029 || c == 0x202F || c == 0x205F || c == 0x3000
  }

  /** `s.rfind("\n", 0, close) + 1`. */
  function LineStart(s: Text, close: nat): (i: nat)
    requires close <= |s|
    ensures i <= close && (i > 0 ==> s[i - 1] == LF)
    ensures forall k :: i <= k < close ==> s[k] != LF
  {
    if close == 0 || s[close - 1] == LF then close else LineStart(s, close - 1)
  }

  /** The indentation of the closing brace, when nothing else precedes it on its line. */
  function ClosingIndent(s: Text, close: nat): Text
    requires close <= |s|
  {
    var line := LineStart(s, close);
    if forall k :: line <= k < close ==> IsPySpace(s[k]) then s[line..close] else []
  }

  function MemberText(indent: Text, key: Text, value: Py, ascii: bool): Text {
    indent + (DumpString(key, ascii) + ([COLON, SPACE] + Dump(value, ascii)))
  }

  /** The inserted chunk. */
  function ChunkText(s: Text, n: Node, key: Text, value: Py, ascii: bool): Text
    requires n.Object? && 0 < n.end <= |s|
  {
    var closing := ClosingIndent(s, n.end - 1);
    var member := MemberText(closing + [SPACE, SPACE], key, value, ascii);
    if n.pairs.NoPairs? then [LF] + (member + ([LF] + closing)) else [COMMA] + ([LF] + member)
  }

  // ---- The closing indent is JSON whitespace -----------------------------------------------------------

  predicate AllWs(t: Text) {
    forall k :: 0 <= k < |t| ==> IsWs(t[k])
  }

  lemma TokenLast(t: Text, d: Dialect)
    requires TokenValue(t, d).Some?
    ensures t != [] && !IsPySpace(t[|t| - 1])
  {
    hide Decode;
    if t[0] != QUOTE && !IsConstant(t, d) {
      assert IsNumChar(t[|t| - 1]);
    }
  }

  lemma LastChar(s: Text, n: Node, d: Dialect)
    requires Derives(s, n, d)
    ensures 0 < n.end <= |s| && !IsPySpace(s[n.end - 1])
  {
    hide TokenValue, DerivesItems, DerivesPairs;
    if n.Leaf? {
      TokenLast(s[n.start..n.end], d);
    }
  }

  /** Where the blank stretch before the closing brace begins. */
  lemma {:induction false} GapStart(s: Text, pairs: Pairs, i: nat, j: nat, d: Dialect) returns (g: nat)
    requires i <= j <= |s| && DerivesPairs(s, pairs, i, j, d) && pairs.Pairs?
    ensures i < g <= j && Blank(s, g, j) && !IsPySpace(s[g - 1])
    decreases pairs
  {
    hide Derives, WsEnd, DerivesKey;
    ValueStart(s, pairs.child, d);
    KeySpans(s, pairs.key, pairs.keyStart, pairs.keyEnd, i, pairs.child.start);
    if pairs.tail.NoPairs? {
      g := pairs.child.end;
      WsEndIsBlank(s, g);
      LastChar(s, pairs.child, d);
    } else {
      g := GapStart(s, pairs.tail, WsEnd(s, pairs.child.end) + 1, j, d);
    }
  }

  lemma ClosingIndentIsBlank(s: Text, n: Node, d: Dialect)
    requires Derives(s, n, d) && n.Object?
    ensures AllWs(ClosingIndent(s, n.end - 1))
  {
    hide DerivesPairs, LineStart;
    var close := n.end - 1;
    var line := LineStart(s, close);
    var g := n.start + 1;
    if n.pairs.Pairs? {
      g := GapStart(s, n.pairs, n.start + 1, close, d);
    } else {
      EmptyGap(s, n.start + 1, close, d);
    }
    if forall k :: line <= k < close ==> IsPySpace(s[k]) {
      assert g <= line;
      forall k | 0 <= k < close - line ensures IsWs(s[line..close][k]) {
        assert s[line..close][k] == s[line + k];
      }
    }
  }

  lemma EmptyGap(s: Text, i: nat, j: nat, d: Dialect)
    requires i <= j <= |s| && DerivesPairs(s, NoPairs, i, j, d)
    ensures Blank(s, i, j)
  {
    WsEndIsBlank(s, i);
  }

  // ---- The same beginning derives the same values --------------------------------------------------------

  /** The two texts agree up to `j`, where neither has whitespace. */
  predicate Agree(s: Text, s2: Text, j: nat) {
    j < |s| && j < |s2| && s[..j] == s2[..j] && !IsWs(s[j]) && !IsWs(s2[j])
  }

  lemma {:induction false} WsKept(s: Text, s2: Text, i: nat, j: nat)
    requires Agree(s, s2, j) && i <= j
    ensures WsEnd(s, i) == WsEnd(s2, i) <= j
    decreases j - i
  {
    if i < j {
      assert s[i] == s[..j][i] == s2[..j][i] == s2[i];
      WsKept(s, s2, i + 1, j);
    }
  }

  lemma SliceKept(s: Text, s2: Text, a: nat, b: nat, j: nat)
    requires Agree(s, s2, j) && a <= b <= j
    ensures s[a..b] == s2[a..b]
  {
    assert s[..j][a..b] == s[a..b] && s2[..j][a..b] == s2[a..b];
  }

  lemma CharKept(s: Text, s2: Text, k: nat, j: nat)
    requires Agree(s, s2, j) && k < j
    ensures s[k] == s2[k]
  {
    assert s[..j][k] == s[k] && s2[..j][k] == s2[k];
  }

  lemma AgreeBefore(s: Text, s2: Text, k: nat, j: nat)
    requires Agree(s, s2, j) && k < j && !IsWs(s[k])
    ensures Agree(s, s2, k)
  {
    CharKept(s, s2, k, j);
    assert s[..j][..k] == s[..k] && s2[..j][..k] == s2[..k];
  }

  lemma {:induction false} NodeKept(s: Text, s2: Text, n: Node, j: nat, d: Dialect)
    requires Agree(s, s2, j) && n.end <= j && Derives(s, n, d)
    ensures Derives(s2, n, d)
    decreases n
  {
    hide TokenValue, DerivesItems, DerivesPairs, Agree;
    AgreeLength(s, s2, j);
    SliceKept(s, s2, n.start, n.end, j);
    CharKept(s, s2, n.start, j);
    CharKept(s, s2, n.end - 1, j);
    match n
    case Leaf(_, _, _) =>
    case Array(start, end, items) =>
      AgreeBefore(s, s2, end - 1, j);
      ItemsKept(s, s2, items, start + 1, end - 1, d);
    case Object(start, end, pairs) =>
      AgreeBefore(s, s2, end - 1, j);
      PairsKept(s, s2, pairs, start + 1, end - 1, d);
  }

  lemma AgreeLength(s: Text, s2: Text, j: nat)
    requires Agree(s, s2, j)
    ensures j < |s| && j < |s2|
  {
  }

  lemma {:induction false} ItemsKept(s: Text, s2: Text, items: Items, i: nat, j: nat, d: Dialect)
    requires Agree(s, s2, j) && i <= j && DerivesItems(s, items, i, j, d)
    ensures DerivesItems(s2, items, i, j, d)
    decreases items
  {
    hide Derives, WsEnd, Agree;
    AgreeLength(s, s2, j);
    WsKept(s, s2, i, j);
    if items.Items? {
      ValueStart(s, items.head, d);
      WsKept(s, s2, items.head.end, j);
      NodeKept(s, s2, items.head, j, d);
      var next := WsEnd(s, items.head.end);
      if items.tail.Items? {
        CharKept(s, s2, next, j);
        ItemsKept(s, s2, items.tail, next + 1, j, d);
      }
    }
  }

  lemma KeyKept(s: Text, s2: Text, key: Text, keyStart: nat, keyEnd: nat, i: nat, child: nat, j: nat)
    requires Agree(s, s2, j) && i <= j && child < j && DerivesKey(s, key, keyStart, keyEnd, i, child)
    ensures DerivesKey(s2, key, keyStart, keyEnd, i, child)
  {
    hide StringToken, WsEnd, Agree;
    AgreeLength(s, s2, j);
    KeySpans(s, key, keyStart, keyEnd, i, child);
    WsKept(s, s2, i, j);
    SliceKept(s, s2, keyStart, keyEnd, j);
    WsKept(s, s2, keyEnd, j);
    var colon := WsEnd(s, keyEnd);
    CharKept(s, s2, colon, j);
    WsKept(s, s2, colon + 1, j);
  }

  lemma {:induction false} PairsKept(s: Text, s2: Text, pairs: Pairs, i: nat, j: nat, d: Dialect)
    requires Agree(s, s2, j) && i <= j && DerivesPairs(s, pairs, i, j, d)
    ensures DerivesPairs(s2, pairs, i, j, d)
    decreases pairs
  {
    hide Derives, WsEnd, Agree, DerivesKey;
    AgreeLength(s, s2, j);
    WsKept(s, s2, i, j);
    if pairs.Pairs? {
      PairKept(s, s2, pairs, i, j, d);
      var next := WsEnd(s, pairs.child.end);
      if pairs.tail.Pairs? {
        CharKept(s, s2, next, j);
        PairsKept(s, s2, pairs.tail, next + 1, j, d);
      }
    }
  }

  /** The first member, up to the whitespace after it. */
  lemma {:induction false} PairKept(s: Text, s2: Text, pairs: Pairs, i: nat, j: nat, d: Dialect)
    requires Agree(s, s2, j) && i <= j <= |s| && pairs.Pairs? && DerivesPairs(s, pairs, i, j, d)
    ensures i <= |s2| && DerivesKey(s2, pairs.key, pairs.keyStart, pairs.keyEnd, i, pairs.child.start)
    ensures Derives(s2, pairs.child, d)
    ensures pairs.child.end <= j && WsEnd(s2, pairs.child.end) == WsEnd(s, pairs.child.end)
    decreases pairs, 0
  {
    hide Derives, WsEnd, Agree, DerivesKey;
    AgreeLength(s, s2, j);
    ValueStart(s, pairs.child, d);
    KeyKept(s, s2, pairs.key, pairs.keyStart, pairs.keyEnd, i, pairs.child.start, j);
    WsKept(s, s2, pairs.child.end, j);
    NodeKept(s, s2, pairs.child, j, d);
  }

  // ---- One more member ------------------------------------------------------------------------------------

  function Append(pairs: Pairs, more: Pairs): Pairs {
    match pairs
    case NoPairs => more
    case Pairs(key, keyStart, keyEnd, child, tail) => Pairs(key, keyStart, keyEnd, child, Append(tail, more))
  }

  lemma {:induction false} AppendDerives(s: Text, s2: Text, pairs: Pairs, i: nat, j: nat, more: Pairs, k: nat,
      d: Dialect)
    requires Agree(s, s2, j) && i <= j && pairs.Pairs? && DerivesPairs(s, pairs, i, j, d)
    requires s2[j] == COMMA && j + 1 <= k <= |s2| && more.Pairs? && DerivesPairs(s2, more, j + 1, k, d)
    ensures DerivesPairs(s2, Append(pairs, more), i, k, d)
    decreases pairs
  {
    hide Derives, WsEnd, Agree, DerivesKey;
    AgreeLength(s, s2, j);
    ValueStart(s, pairs.child, d);
    PairKept(s, s2, pairs, i, j, d);
    var next := WsEnd(s, pairs.child.end);
    if pairs.tail.Pairs? {
      CharKept(s, s2, next, j);
      AppendDerives(s, s2, pairs.tail, next + 1, j, more, k, d);
    }
  }

  /** The tree of a member written out at `at`, and where it ends. */
  function Member(key: Text, value: Py, ascii: bool, at: nat): Pairs {
    var colon := at + |DumpString(key, ascii)|;
    Pairs(ReloadedString(key, ascii), at, colon, Tree(value, ascii, colon + 2), NoPairs)
  }

  lemma BlankAt(s: Text, i: nat, t: Text)
    requires At(s, i, t) && AllWs(t)
    ensures Blank(s, i, i + |t|)
  {
    AtIsSlice(s, i, t);
    forall k | i <= k < i + |t| ensures IsWs(s[k]) {
      assert s[k] == s[i..i + |t|][k - i];
    }
  }

  lemma BlankJoin(s: Text, i: nat, j: nat, k: nat)
    requires Blank(s, i, j) && Blank(s, j, k)
    ensures Blank(s, i, k)
  {
  }

  /** From blank to blank: a written member between them. */
  lemma MemberDerives(s: Text, i: nat, at: nat, indent: Text, key: Text, value: Py, ascii: bool, k: nat, d: Dialect)
    requires Blank(s, i, at) && At(s, at, MemberText(indent, key, value, ascii)) && AllWs(indent)
    requires at + |MemberText(indent, key, value, ascii)| <= k < |s| && !IsWs(s[k])
    requires Blank(s, at + |MemberText(indent, key, value, ascii)|, k) && Spells(value, d)
    ensures DerivesPairs(s, Member(key, value, ascii, at + |indent|), i, k, d)
  {
    hide At, Derives, Dump, DumpString, Tree, WsEnd, Spells, StringToken, ReloadedString;
    var from := at + |indent|;
    var colon := from + |DumpString(key, ascii)|;
    var child := Tree(value, ascii, colon + 2);
    AtAppend(s, at, indent, DumpString(key, ascii) + ([COLON, SPACE] + Dump(value, ascii)));
    AtAppend(s, from, DumpString(key, ascii), [COLON, SPACE] + Dump(value, ascii));
    AtAppend(s, colon, [COLON, SPACE], Dump(value, ascii));
    ColonSpace(s, colon);
    BlankAt(s, at, indent);
    BlankJoin(s, i, at, from);
    DumpedString(s, from, key, ascii);
    WsEndAfterBlank(s, i, from);
    NoGap(s, colon);
    DumpDerives(s, colon + 2, value, ascii, d);
    ValueStart(s, child, d);
    WsEndAfterBlank(s, colon + 1, colon + 2);
    WsEndAfterBlank(s, child.end, k);
  }

  lemma ColonSpace(s: Text, i: nat)
    requires At(s, i, [COLON, SPACE])
    ensures i + 2 <= |s| && s[i] == COLON && s[i + 1] == SPACE
  {
    AtIsSlice(s, i, [COLON, SPACE]);
    assert s[i] == s[i..i + 2][0] && s[i + 1] == s[i..i + 2][1];
  }
}
