/** The spelling that `json.dumps` chooses, among all that are read as the same value. */
module JsonWritten {
  import opened Text
  import opened JsonStrings
  import opened JsonGrammar
  import opened JsonParser
  import opened JsonValues
  import opened JsonDumps

  /** The file has a `\u` and nothing beyond ASCII. */
  predicate Escapes(s: Text) {
    (exists k :: 0 <= k < |s| - 1 && s[k] == 92 && s[k + 1] == 117) && forall k :: 0 <= k < |s| ==> s[k] < 128
  }

  // ---- Strings: no spelling is shorter ------------------------------------------------------------------

  /** From the blank to the tilde. */
  predicate Printable(b: Text) {
    forall k :: 0 <= k < |b| ==> 32 <= b[k] <= 126
  }

  /** No hexadecimal digit of an escape is an upper-case letter. */
  predicate LowerHex(b: Text)
    decreases |b|
  {
    match FirstUnit(b)
    case None => true
    case Some(u) => LowerUnit(b[..u.width]) && LowerHex(b[u.width..])
  }

  predicate LowerUnit(u: Text) {
    |u| >= 6 ==> forall k :: 0 <= k < |u| ==> !(65 <= u[k] <= 70)
  }

  lemma LowerDigit(c: Code)
    requires HexValue(c).Some? && !(65 <= c <= 70)
    ensures HexDigit(HexValue(c).value) == c
  {
  }

  lemma FourDigitsAre(d0: nat, d1: nat, d2: nat, d3: nat)
    requires d0 < 16 && d1 < 16 && d2 < 16 && d3 < 16
    ensures var c := d0 * 4096 + d1 * 256 + d2 * 16 + d3;
            c / 4096 == d0 && c / 256 % 16 == d1 && c / 16 % 16 == d2 && c % 16 == d3
  {
    var c := d0 * 4096 + d1 * 256 + d2 * 16 + d3;
    assert c / 16 == d0 * 256 + d1 * 16 + d2 && c / 256 == d0 * 16 + d1;
  }

  /** A lower-case escape is the one that is written. */
  lemma EscapeIsWritten(b: Text, i: nat)
    requires UnicodeEscape(b, i).Some? && forall k :: i <= k < i + 6 ==> !(65 <= b[k] <= 70)
    ensures UnicodeEscape(b, i).value < 0x10000 && WriteEscape(UnicodeEscape(b, i).value) == b[i..i + 6]
  {
    hide HexValue, HexDigit;
    LowerDigit(b[i + 2]);
    LowerDigit(b[i + 3]);
    LowerDigit(b[i + 4]);
    LowerDigit(b[i + 5]);
    FourDigitsAre(HexValue(b[i + 2]).value, HexValue(b[i + 3]).value, HexValue(b[i + 4]).value,
                  HexValue(b[i + 5]).value);
  }

  /** The spelling of one character. */
  lemma UnitIsShortest(b: Text, ascii: bool)
    requires FirstUnit(b).Some? && LowerUnit(b[..FirstUnit(b).value.width])
    requires ascii ==> Printable(b[..FirstUnit(b).value.width])
    ensures var u := FirstUnit(b).value;
            && |WriteCode(u.code, ascii)| <= u.width
            && (|WriteCode(u.code, ascii)| == u.width ==> WriteCode(u.code, ascii) == b[..u.width])
  {
    hide WriteEscape, UnicodeEscape;
    var u := FirstUnit(b).value;
    var t := b[..u.width];
    assert forall k :: 0 <= k < u.width ==> b[k] == t[k];
    if u.width >= 6 {
      EscapeIsWritten(b, 0);
      if u.width == 12 {
        EscapeIsWritten(b, 6);
        assert t == b[..6] + b[6..12];
      }
    }
  }

  /**
   Of all texts that decode to `s`, with printable characters only if escaping is on and with lower-case escapes,
   none is shorter than the one that is written, and no other is as short.
   */
  lemma {:induction false} WrittenIsShortest(b: Text, s: Text, ascii: bool)
    requires Decode(b) == Some(s) && LowerHex(b) && (ascii ==> Printable(b))
    ensures |WriteBody(s, ascii)| <= |b|
    ensures |WriteBody(s, ascii)| == |b| ==> WriteBody(s, ascii) == b
    decreases |b|
  {
    hide FirstUnit, WriteCode, LowerUnit;
    if b != [] {
      var u := FirstUnit(b).value;
      var t, rest := b[..u.width], b[u.width..];
      assert b == t + rest;
      UnitIsShortest(b, ascii);
      assert s == [u.code] + Decode(rest).value;
      assert s[1..] == Decode(rest).value;
      WrittenIsShortest(rest, s[1..], ascii);
    }
  }

  /** What is written is printable if escaping is on; and strings are written character by character. */
  lemma {:induction false} WrittenInParts(s: Text, s2: Text, ascii: bool)
    ensures WriteBody(s + s2, ascii) == WriteBody(s, ascii) + WriteBody(s2, ascii)
    ensures ascii ==> Printable(WriteBody(s, ascii))
    decreases |s|
  {
    hide WriteCode;
    if s == [] {
      assert s + s2 == s2;
    } else {
      CodePrintable(s[0], ascii);
      WrittenInParts(s[1..], s2, ascii);
      assert (s + s2)[1..] == s[1..] + s2;
    }
  }

  lemma CodePrintable(c: Code, ascii: bool)
    ensures ascii ==> Printable(WriteCode(c, ascii))
  {
  }

  // ---- Values: nothing between the tokens but punctuation -------------------------------------------------

  /** The text of a node spells the value, token by token, with nothing in between that is not needed. */
  predicate Spelled(s: Text, n: Node, p: Py, ascii: bool) {
    n.start <= n.end <= |s| &&
    match p
    case PyStr(t) => n.Leaf? && s[n.start..n.end] == [34] + WriteBody(t, ascii) + [34]
    case PyFloat(spelling) => n.Leaf? && s[n.start..n.end] == spelling
    case PyInt(x) => n.Leaf? && (x == 0 ==> s[n.start..n.end] == [48])
    case PyList(elems) => n.Array? && SpelledItems(s, n.items, n.start + 1, n.end, elems, ascii)
    case PyDict(members) => n.Object? && SpelledPairs(s, n.pairs, n.start + 1, n.end, members, ascii)
    case _ => n.Leaf?
  }

  /** The elements from `i` on, up to the bracket that ends at `j`; each one after the first follows its comma. */
  predicate SpelledItems(s: Text, items: Items, i: nat, j: nat, elems: PyElems, ascii: bool) {
    match elems
    case NoElems => items.NoItems? && i + 1 == j
    case PyElems(p, tail) =>
      && items.Items? && items.head.start == i && Spelled(s, items.head, p, ascii)
      && if tail.NoElems? then items.tail.NoItems? && items.head.end + 1 == j
         else SpelledItems(s, items.tail, items.head.end + 1, j, tail, ascii)
  }

  /** The members likewise; each value follows the colon. */
  predicate SpelledPairs(s: Text, pairs: Pairs, i: nat, j: nat, members: PyMembers, ascii: bool) {
    match members
    case NoMembers => pairs.NoPairs? && i + 1 == j
    case PyMembers(key, p, tail) =>
      && pairs.Pairs? && pairs.keyStart == i <= pairs.keyEnd <= |s|
      && s[i..pairs.keyEnd] == [34] + WriteBody(key, ascii) + [34]
      && pairs.child.start == pairs.keyEnd + 1 && Spelled(s, pairs.child, p, ascii)
      && if tail.NoMembers? then pairs.tail.NoPairs? && pairs.child.end + 1 == j
         else SpelledPairs(s, pairs.tail, pairs.child.end + 1, j, tail, ascii)
  }

  lemma {:induction false} TreeIsSpelled(s: Text, at: nat, p: Py, ascii: bool)
    requires At(s, at, Dump(p, ascii))
    ensures Spelled(s, Tree(p, ascii, at), p, ascii)
    decreases p
  {
    hide At, Dump, Tree, DumpElems, DumpMembers, ElemTrees, MemberTrees, SpelledItems, SpelledPairs, WriteBody;
    AtIsSlice(s, at, Dump(p, ascii));
    ContainerTree(p, ascii, at);
    match p
    case PyList(elems) =>
      Bracketed(s, at, LBRACKET, DumpElems(elems, ascii), RBRACKET);
      ElemsSpelled(s, at + 1, elems, ascii);
    case PyDict(members) =>
      Bracketed(s, at, LBRACE, DumpMembers(members, ascii), RBRACE);
      MembersSpelled(s, at + 1, members, ascii);
    case _ => ScalarTree(p, ascii, at);
  }

  lemma ScalarTree(p: Py, ascii: bool, at: nat)
    requires IsScalar(p)
    ensures Tree(p, ascii, at).Leaf?
    ensures p.PyStr? ==> Dump(p, ascii) == [34] + WriteBody(p.s, ascii) + [34]
    ensures p.PyFloat? ==> Dump(p, ascii) == p.spelling
    ensures p == PyInt(0) ==> Dump(p, ascii) == [48]
  {
  }

  lemma {:induction false} ElemsSpelled(s: Text, i: nat, elems: PyElems, ascii: bool)
    requires At(s, i, DumpElems(elems, ascii))
    ensures SpelledItems(s, ElemTrees(elems, ascii, i), i, i + |DumpElems(elems, ascii)| + 1, elems, ascii)
    decreases elems
  {
    hide At, Dump, Tree, Spelled;
    match elems
    case NoElems =>
    case PyElems(head, tail) =>
      var rest := if tail.NoElems? then [] else [COMMA] + DumpElems(tail, ascii);
      AtAppend(s, i, Dump(head, ascii), rest);
      TreeIsSpelled(s, i, head, ascii);
      if !tail.NoElems? {
        AtAppend(s, i + |Dump(head, ascii)|, [COMMA], DumpElems(tail, ascii));
        ElemsSpelled(s, i + |Dump(head, ascii)| + 1, tail, ascii);
      }
  }

  lemma StringIsQuoted(s: Text, ascii: bool)
    ensures DumpString(s, ascii) == [34] + WriteBody(s, ascii) + [34]
  {
  }

  /** A member and the ones after it, with nothing in between but the colon and the comma. */
  lemma FirstPair(s: Text, pairs: Pairs, i: nat, j: nat, members: PyMembers, ascii: bool)
    requires members.PyMembers? && pairs.Pairs? && pairs.keyStart == i <= pairs.keyEnd <= |s|
    requires s[i..pairs.keyEnd] == [34] + WriteBody(members.key, ascii) + [34]
    requires pairs.child.start == pairs.keyEnd + 1 && Spelled(s, pairs.child, members.value, ascii)
    requires if members.tail.NoMembers? then pairs.tail.NoPairs? && pairs.child.end + 1 == j
             else SpelledPairs(s, pairs.tail, pairs.child.end + 1, j, members.tail, ascii)
    ensures SpelledPairs(s, pairs, i, j, members, ascii)
  {
    hide Spelled, WriteBody;
  }

  lemma MemberTreesStep(members: PyMembers, ascii: bool, at: nat)
    requires members.PyMembers?
    ensures var colon := at + |DumpString(members.key, ascii)|;
            var pairs := MemberTrees(members, ascii, at);
            && pairs.Pairs? && pairs.keyStart == at && pairs.keyEnd == colon
            && pairs.child == Tree(members.value, ascii, colon + 1)
            && pairs.tail == MemberTrees(members.tail, ascii, colon + 1 + |Dump(members.value, ascii)| + 1)
            && (members.tail.NoMembers? ==> pairs.tail.NoPairs?)
    ensures DumpMembers(members, ascii) ==
            DumpString(members.key, ascii) + ([COLON] + (Dump(members.value, ascii) +
            if members.tail.NoMembers? then [] else [COMMA] + DumpMembers(members.tail, ascii)))
  {
    hide Tree, Dump, DumpString, ReloadedString;
  }

  lemma NoMembersSpelled(s: Text, i: nat, ascii: bool)
    ensures SpelledPairs(s, MemberTrees(NoMembers, ascii, i), i, i + |DumpMembers(NoMembers, ascii)| + 1, NoMembers,
                         ascii)
  {
  }

  lemma {:induction false} MembersSpelled(s: Text, i: nat, members: PyMembers, ascii: bool)
    requires At(s, i, DumpMembers(members, ascii))
    ensures SpelledPairs(s, MemberTrees(members, ascii, i), i, i + |DumpMembers(members, ascii)| + 1, members, ascii)
    decreases members
  {
    hide At, Dump, Tree, Spelled, WriteBody, DumpString, ReloadedString, SpelledPairs, MemberTrees, DumpMembers;
    match members
    case NoMembers => NoMembersSpelled(s, i, ascii);
    case PyMembers(key, value, tail) =>
      var colon := i + |DumpString(key, ascii)|;
      var end := colon + 1 + |Dump(value, ascii)|;
      var rest := if tail.NoMembers? then [] else [COMMA] + DumpMembers(tail, ascii);
      MemberTreesStep(members, ascii, i);
      MemberDumpedAt(s, i, key, value, rest, ascii);
      AtIsSlice(s, i, DumpString(key, ascii));
      StringIsQuoted(key, ascii);
      TreeIsSpelled(s, colon + 1, value, ascii);
      if !tail.NoMembers? {
        AtAppend(s, end, [COMMA], DumpMembers(tail, ascii));
        MembersSpelled(s, end + 1, tail, ascii);
      }
      FirstPair(s, MemberTrees(members, ascii, i), i, i + |DumpMembers(members, ascii)| + 1, members, ascii);
  }

  /** `json.dumps` writes no blank between tokens, and every key and string in its shortest spelling. */
  lemma DumpIsCompact(p: Py, ascii: bool)
    ensures ParseDocument(Dump(p, ascii), Lenient).Ok?
    ensures var t, root := Dump(p, ascii), ParseDocument(Dump(p, ascii), Lenient).value;
            root.start == 0 && root.end == |t| && Spelled(t, root, p, ascii)
  {
    hide At, Dump, ParseDocument, Spelled;
    var t := Dump(p, ascii);
    DumpsLoads(p, ascii);
    AtSlice(t, 0, |t|);
    assert t[0..|t|] == t;
    TreeIsSpelled(t, 0, p, ascii);
  }
}
