/**
 What inserting a member does to the whole document: its tree, in which the addressed object is replaced by
 the longer one and everything after it is shifted; its value, in which one dictionary has one more entry;
 and every path into it, which leads where it led before.
 */
module JsonMemberTree {
  import opened Text
  import opened JsonGrammar
  import opened JsonPaths
  import opened JsonValues
  import opened JsonLocality
  import opened JsonDumps
  import opened JsonMembers

  // ---- The object with one more member -----------------------------------------------------------------

  function Inserted(s: Text, n: Node, key: Text, value: Py, ascii: bool): Text
    requires n.Object? && 0 < n.end <= |s|
  {
    s[..n.end - 1] + ChunkText(s, n, key, value, ascii) + s[n.end - 1..]
  }

  /** The offset of the new key. */
  function KeyAt(s: Text, n: Node): nat
    requires n.Object? && 0 < n.end <= |s|
  {
    n.end - 1 + (if n.pairs.NoPairs? then 1 else 2) + |ClosingIndent(s, n.end - 1)| + 2
  }

  function Extended(s: Text, n: Node, key: Text, value: Py, ascii: bool): Node
    requires n.Object? && 0 < n.end <= |s|
  {
    Object(n.start, n.end + |ChunkText(s, n, key, value, ascii)|,
           Append(n.pairs, Member(key, value, ascii, KeyAt(s, n))))
  }

  /** The new text around the insertion point. */
  lemma InsertedText(s: Text, n: Node, key: Text, value: Py, ascii: bool)
    requires n.Object? && 0 < n.end <= |s|
    ensures var close, chunk, s2 := n.end - 1, ChunkText(s, n, key, value, ascii), Inserted(s, n, key, value, ascii);
            && |s2| == |s| + |chunk| && s2[..close] == s[..close] && s2[close + |chunk|..] == s[close..]
            && s2[close + |chunk|] == s[close] && At(s2, close, chunk)
  {
    hide ChunkText;
    var close, chunk, s2 := n.end - 1, ChunkText(s, n, key, value, ascii), Inserted(s, n, key, value, ascii);
    assert s2[close..close + |chunk|] == chunk;
    AtIsSlice(s2, close, chunk);
    assert s2[close + |chunk|] == s2[close + |chunk|..][0];
  }

  lemma LineFeedAt(s: Text, i: nat, rest: Text, c: Code)
    requires At(s, i, [c] + rest)
    ensures i < |s| && s[i] == c && At(s, i + 1, rest)
  {
    AtAppend(s, i, [c], rest);
    OneAt(s, i, c);
  }

  /** The chunk, and where the key stands in it. */
  lemma ChunkParts(s: Text, n: Node, key: Text, value: Py, ascii: bool)
    requires n.Object? && 0 < n.end <= |s|
    ensures var closing := ClosingIndent(s, n.end - 1);
            var member := MemberText(closing + [SPACE, SPACE], key, value, ascii);
            && ChunkText(s, n, key, value, ascii) ==
               (if n.pairs.NoPairs? then [LF] + (member + ([LF] + closing)) else [COMMA] + ([LF] + member))
            && KeyAt(s, n) == n.end - 1 + (if n.pairs.NoPairs? then 1 else 2) + |closing + [SPACE, SPACE]|
  {
    hide ClosingIndent, MemberText;
  }

  lemma ObjectEnds(s: Text, n: Node, d: Dialect)
    requires n.Object? && Derives(s, n, d)
    ensures n.start + 1 < n.end <= |s| && s[n.end - 1] == RBRACE
    ensures DerivesPairs(s, n.pairs, n.start + 1, n.end - 1, d)
  {
    hide DerivesPairs;
  }

  lemma FirstMember(s: Text, s2: Text, n: Node, key: Text, value: Py, ascii: bool, d: Dialect)
    requires n.Object? && n.pairs.NoPairs? && Derives(s, n, d) && Spells(value, d)
    requires s2 == Inserted(s, n, key, value, ascii)
    ensures var end := n.end - 1 + |ChunkText(s, n, key, value, ascii)|;
            n.start + 1 <= end <= |s2| && DerivesPairs(s2, Member(key, value, ascii, KeyAt(s, n)), n.start + 1, end, d)
  {
    hide At, MemberText, ClosingIndent, WsEnd, Spells, Member, Inserted, DerivesPairs, ChunkText, KeyAt, Derives;
    ObjectEnds(s, n, d);
    ChunkParts(s, n, key, value, ascii);
    var close := n.end - 1;
    var closing := ClosingIndent(s, close);
    var indent := closing + [SPACE, SPACE];
    var member := MemberText(indent, key, value, ascii);
    var end := close + |ChunkText(s, n, key, value, ascii)|;
    InsertedText(s, n, key, value, ascii);
    ClosingIndentIsBlank(s, n, d);
    EmptyGap(s, n.start + 1, close, d);
    LineFeedAt(s2, close, member + ([LF] + closing), LF);
    AtAppend(s2, close + 1, member, [LF] + closing);
    BlankKept(s, s2, n.start + 1, close);
    BlankAt(s2, close + 1 + |member|, [LF] + closing);
    MemberDerives(s2, n.start + 1, close + 1, indent, key, value, ascii, end, d);
  }

  lemma BlankKept(s: Text, s2: Text, i: nat, j: nat)
    requires Blank(s, i, j) && j < |s2| && s2[..j] == s[..j] && s2[j] == LF
    ensures Blank(s2, i, j + 1)
  {
    forall k | i <= k < j ensures IsWs(s2[k]) {
      assert s2[k] == s2[..j][k] == s[..j][k];
    }
  }

  lemma SecondMember(s: Text, s2: Text, n: Node, key: Text, value: Py, ascii: bool, d: Dialect)
    requires n.Object? && n.pairs.Pairs? && Derives(s, n, d) && Spells(value, d)
    requires s2 == Inserted(s, n, key, value, ascii)
    ensures var close := n.end - 1;
            var end := close + |ChunkText(s, n, key, value, ascii)|;
            && close + 1 <= end <= |s2| && s2[close] == COMMA
            && DerivesPairs(s2, Member(key, value, ascii, KeyAt(s, n)), close + 1, end, d)
  {
    hide At, MemberText, ClosingIndent, WsEnd, Spells, Inserted, DerivesPairs, Member, ChunkText, KeyAt, Derives;
    ObjectEnds(s, n, d);
    ChunkParts(s, n, key, value, ascii);
    var close := n.end - 1;
    var indent := ClosingIndent(s, close) + [SPACE, SPACE];
    var member := MemberText(indent, key, value, ascii);
    var end := close + |ChunkText(s, n, key, value, ascii)|;
    InsertedText(s, n, key, value, ascii);
    ClosingIndentIsBlank(s, n, d);
    LineFeedAt(s2, close, [LF] + member, COMMA);
    LineFeedAt(s2, close + 1, member, LF);
    MemberDerives(s2, close + 1, close + 2, indent, key, value, ascii, end, d);
  }

  lemma NextMember(s: Text, s2: Text, n: Node, key: Text, value: Py, ascii: bool, d: Dialect)
    requires n.Object? && n.pairs.Pairs? && Derives(s, n, d) && Spells(value, d)
    requires s2 == Inserted(s, n, key, value, ascii)
    ensures var end := n.end - 1 + |ChunkText(s, n, key, value, ascii)|;
            && n.start + 1 <= end <= |s2|
            && DerivesPairs(s2, Append(n.pairs, Member(key, value, ascii, KeyAt(s, n))), n.start + 1, end, d)
  {
    hide At, ChunkText, Spells, Inserted, DerivesPairs, KeyAt;
    var close := n.end - 1;
    InsertedText(s, n, key, value, ascii);
    SecondMember(s, s2, n, key, value, ascii, d);
    AppendDerives(s, s2, n.pairs, n.start + 1, close, Member(key, value, ascii, KeyAt(s, n)),
                  close + |ChunkText(s, n, key, value, ascii)|, d);
  }

  lemma ObjectExtended(s: Text, n: Node, key: Text, value: Py, ascii: bool, d: Dialect)
    requires n.Object? && Derives(s, n, d) && Spells(value, d)
    ensures Derives(Inserted(s, n, key, value, ascii), Extended(s, n, key, value, ascii), d)
  {
    hide At, ChunkText, Spells, Member, Inserted, DerivesPairs, KeyAt;
    var s2 := Inserted(s, n, key, value, ascii);
    InsertedText(s, n, key, value, ascii);
    if n.pairs.NoPairs? {
      FirstMember(s, s2, n, key, value, ascii, d);
    } else {
      NextMember(s, s2, n, key, value, ascii, d);
    }
    var close := n.end - 1;
    assert s2[n.start] == s2[..close][n.start] == s[..close][n.start];
  }

  // ---- The document ---------------------------------------------------------------------------------------

  function EditAt(s: Text, n: Node, key: Text, value: Py, ascii: bool): Edit
    requires n.Object? && n.start < n.end <= |s|
  {
    Edit(n.start, n.end, n.end - n.start + |ChunkText(s, n, key, value, ascii)|, Extended(s, n, key, value, ascii))
  }

  lemma {:induction false} NthDerives(s: Text, items: Items, i: nat, j: nat, k: nat, d: Dialect)
    requires i <= j <= |s| && DerivesItems(s, items, i, j, d) && k < Count(items)
    ensures Derives(s, Nth(items, k), d) && i <= Nth(items, k).start && Nth(items, k).end <= j
    decreases items
  {
    hide Derives, WsEnd;
    ValueStart(s, items.head, d);
    if k > 0 {
      NthDerives(s, items.tail, WsEnd(s, items.head.end) + 1, j, k - 1, d);
    }
  }

  lemma {:induction false} LookupDerives(s: Text, pairs: Pairs, i: nat, j: nat, key: Text, d: Dialect)
    requires i <= j <= |s| && DerivesPairs(s, pairs, i, j, d) && Lookup(pairs, key).Some?
    ensures var c := Lookup(pairs, key).value; Derives(s, c, d) && i <= c.start && c.end <= j
    decreases pairs
  {
    hide Derives, WsEnd, DerivesKey;
    ValueStart(s, pairs.child, d);
    KeySpans(s, pairs.key, pairs.keyStart, pairs.keyEnd, i, pairs.child.start);
    if Lookup(pairs.tail, key).Some? {
      LookupDerives(s, pairs.tail, WsEnd(s, pairs.child.end) + 1, j, key, d);
    }
  }

  lemma ChildDerives(s: Text, n: Node, step: Step, d: Dialect)
    requires Derives(s, n, d) && Child(n, step).Ok?
    ensures var c := Child(n, step).value; Derives(s, c, d) && n.start < c.start && c.end < n.end
  {
    hide DerivesItems, DerivesPairs, Lookup, Count, Nth;
    if n.Array? {
      NthDerives(s, n.items, n.start + 1, n.end - 1, step.index.value, d);
    } else {
      LookupDerives(s, n.pairs, n.start + 1, n.end - 1, step.key, d);
    }
  }

  lemma {:induction false} TargetDerives(s: Text, n: Node, path: seq<Step>, d: Dialect)
    requires Derives(s, n, d) && Navigate(n, path).Ok?
    ensures var t := Navigate(n, path).value;
            && Derives(s, t, d) && n.start <= t.start < t.end <= n.end && t.end <= |s|
            && (path != [] ==> n.start < t.start)
    decreases |path|
  {
    hide Derives, Child;
    ValueStart(s, n, d);
    if path != [] {
      ChildDerives(s, n, path[0], d);
      TargetDerives(s, Child(n, path[0]).value, path[1..], d);
    }
  }

  lemma {:induction false} NthHasNode(items: Items, k: nat, e: Edit)
    requires k < Count(items) && HasNode(Nth(items, k), e)
    ensures ItemsHaveNode(items, e)
    decreases items
  {
    if k > 0 {
      NthHasNode(items.tail, k - 1, e);
    }
  }

  lemma {:induction false} LookupHasNode(pairs: Pairs, key: Text, e: Edit)
    requires Lookup(pairs, key).Some? && HasNode(Lookup(pairs, key).value, e)
    ensures PairsHaveNode(pairs, e)
    decreases pairs
  {
    if Lookup(pairs.tail, key).Some? {
      LookupHasNode(pairs.tail, key, e);
    }
  }

  lemma {:induction false} NavigatedHasNode(n: Node, path: seq<Step>, e: Edit)
    requires Navigate(n, path).Ok? && Hit(Navigate(n, path).value, e)
    ensures HasNode(n, e)
    decreases |path|
  {
    if path != [] {
      NavigatedHasNode(Child(n, path[0]).value, path[1..], e);
      if n.Array? {
        NthHasNode(n.items, path[0].index.value, e);
      } else {
        LookupHasNode(n.pairs, path[0].key, e);
      }
    }
  }

  /** Inserting the chunk is replacing the object's text by the longer object's. */
  lemma EditedByInsertion(s: Text, n: Node, key: Text, value: Py, ascii: bool, d: Dialect)
    requires n.Object? && Derives(s, n, d) && Spells(value, d)
    ensures var e, s2 := EditAt(s, n, key, value, ascii), Inserted(s, n, key, value, ascii);
            && Proper(e) && e.a + e.len <= |s2| && After(s, e, s2[e.a..e.a + e.len]) == s2
            && Edited(s, e, s2[e.a..e.a + e.len], d)
  {
    hide Derives, Extended, Spells, ChunkText;
    ValueStart(s, n, d);
    var chunk := ChunkText(s, n, key, value, ascii);
    var e, s2 := EditAt(s, n, key, value, ascii), Inserted(s, n, key, value, ascii);
    ExtendedSpan(s, n, key, value, ascii);
    ObjectExtended(s, n, key, value, ascii, d);
    ValueStart(s2, e.node, d);
    InsertedParts(s, n, chunk);
    assert s2[e.a..e.a + e.len][0] == s2[e.a];
  }

  /** The inserted text derives the document with the member appended to the addressed object. */
  lemma DocumentExtended(s: Text, root: Node, path: seq<Step>, key: Text, value: Py, ascii: bool, d: Dialect)
    requires DerivesDocument(s, root, d) && Navigate(root, path).Ok? && Navigate(root, path).value.Object?
    requires Spells(value, d)
    ensures var n := Navigate(root, path).value;
            && Derives(s, n, d) && n.start < n.end <= |s| && Proper(EditAt(s, n, key, value, ascii))
            && DerivesDocument(Inserted(s, n, key, value, ascii), Move(root, EditAt(s, n, key, value, ascii)), d)
  {
    hide Derives, Navigate, Extended, Spells, ChunkText, WsEnd, HasNode, Move, Edited, After, Inserted, DerivesDocument;
    RootDerives(s, root, d);
    TargetDerives(s, root, path, d);
    var n := Navigate(root, path).value;
    EditedByInsertion(s, n, key, value, ascii, d);
    var e, s2 := EditAt(s, n, key, value, ascii), Inserted(s, n, key, value, ascii);
    ExtendedSpan(s, n, key, value, ascii);
    NavigatedHasNode(root, path, e);
    DocumentMoved(s, root, e, s2[e.a..e.a + e.len], d);
  }

  lemma RootDerives(s: Text, root: Node, d: Dialect)
    requires DerivesDocument(s, root, d)
    ensures Derives(s, root, d)
  {
  }

  lemma ExtendedSpan(s: Text, n: Node, key: Text, value: Py, ascii: bool)
    requires n.Object? && n.start < n.end <= |s|
    ensures var m := Extended(s, n, key, value, ascii);
            m.Object? && m.start == n.start && m.end == n.end + |ChunkText(s, n, key, value, ascii)|
  {
  }

  lemma InsertedParts(s: Text, n: Node, chunk: Text)
    requires n.start < n.end <= |s|
    ensures var s2 := s[..n.end - 1] + chunk + s[n.end - 1..];
            s[..n.start] + s2[n.start..n.end + |chunk|] + s[n.end..] == s2
  {
    var s2 := s[..n.end - 1] + chunk + s[n.end - 1..];
    assert s2[n.end + |chunk|..] == s[n.end..];
    assert s2[..n.start] == s[..n.start];
    assert s2 == s2[..n.start] + s2[n.start..n.end + |chunk|] + s2[n.end + |chunk|..];
  }

  // ---- The value ------------------------------------------------------------------------------------------

  /** An edit that puts an object in place of an object. */
  predicate OfObject(e: Edit) {
    Proper(e) && e.node.Object?
  }

  lemma {:induction false} ElsewhereValue(n: Node, e: Edit)
    requires Ordered(n) && OfObject(e) && (n.end <= e.a || e.b <= n.start)
    ensures ValueOf(Move(n, e)) == ValueOf(n)
    decreases n
  {
    match n
    case Leaf(_, _, _) =>
    case Array(start, end, items) => ElsewhereItems(items, start, end, e);
    case Object(start, end, pairs) => ElsewherePairs(NoEntries, pairs, start, end, e);
  }

  lemma {:induction false} ElsewhereItems(items: Items, i: nat, j: nat, e: Edit)
    requires OrderedItems(items, i, j) && OfObject(e) && (j <= e.a || e.b <= i)
    ensures ValuesOf(MoveItems(items, e)) == ValuesOf(items)
    decreases items
  {
    hide Shift;
    if items.Items? {
      ElsewhereValue(items.head, e);
      ElsewhereItems(items.tail, items.head.end, j, e);
    }
  }

  lemma {:induction false} ElsewherePairs(soFar: Entries, pairs: Pairs, i: nat, j: nat, e: Edit)
    requires OrderedPairs(pairs, i, j) && OfObject(e) && (j <= e.a || e.b <= i)
    ensures EntriesOf(soFar, MovePairs(pairs, e)) == EntriesOf(soFar, pairs)
    decreases pairs
  {
    hide Shift;
    if pairs.Pairs? {
      ElsewhereValue(pairs.child, e);
      ElsewherePairs(DictSet(soFar, pairs.key, ValueOf(pairs.child)), pairs.tail, pairs.child.end, j, e);
    }
  }

  lemma {:induction false} MovedMember(entries: Entries, pairs: Pairs, i: nat, j: nat, key: Text, e: Edit)
    requires OrderedPairs(pairs, i, j) && OfObject(e) && Lookup(pairs, key).Some?
    requires var child := Lookup(pairs, key).value; child.start <= e.a && e.b <= child.end
    ensures EntriesOf(entries, MovePairs(pairs, e)) ==
            DictSet(EntriesOf(entries, pairs), key, ValueOf(Move(Lookup(pairs, key).value, e)))
    decreases pairs
  {
    hide Shift, ValueOf, Move;
    if Lookup(pairs.tail, key).Some? {
      LookupSpan(pairs.tail, pairs.child.end, j, key);
      ElsewhereValue(pairs.child, e);
      MovedMember(DictSet(entries, pairs.key, ValueOf(pairs.child)), pairs.tail, pairs.child.end, j, key, e);
    } else {
      var x, y := ValueOf(pairs.child), ValueOf(Move(pairs.child, e));
      ElsewherePairs(DictSet(entries, key, y), pairs.tail, pairs.child.end, j, e);
      DictSetTwice(entries, key, x, y);
      DictSetGet(entries, key, x, key);
      SetBeforeTheRest(DictSet(entries, key, x), key, y, pairs.tail);
    }
  }

  lemma {:induction false} MovedElement(items: Items, i: nat, j: nat, k: nat, e: Edit)
    requires OrderedItems(items, i, j) && OfObject(e) && k < Count(items)
    requires Nth(items, k).start <= e.a && e.b <= Nth(items, k).end
    ensures k < Length(ValuesOf(items))
    ensures ValuesOf(MoveItems(items, e)) == SetNth(ValuesOf(items), k, ValueOf(Move(Nth(items, k), e)))
    decreases items
  {
    hide Shift, ValueOf, Move;
    CountIsLength(items);
    NthSpan(items, i, j, k);
    if k == 0 {
      ElsewhereItems(items.tail, items.head.end, j, e);
    } else {
      NthSpan(items.tail, items.head.end, j, k - 1);
      ElsewhereValue(items.head, e);
      MovedElement(items.tail, items.head.end, j, k - 1, e);
    }
  }

  lemma MovedChild(n: Node, step: Step, e: Edit)
    requires Ordered(n) && OfObject(e) && Child(n, step).Ok? && !Hit(n, e)
    requires var c := Child(n, step).value; c.start <= e.a && e.b <= c.end
    ensures Put(ValueOf(n), step, ValueOf(Move(Child(n, step).value, e))) == Some(ValueOf(Move(n, e)))
  {
    hide Shift;
    if n.Array? {
      CountIsLength(n.items);
      MovedElement(n.items, n.start, n.end, step.index.value, e);
    } else {
      MovedMember(NoEntries, n.pairs, n.start, n.end, step.key, e);
    }
  }

  /** `v` with `x` at `path`; the empty path names the whole value. */
  function PutAt(v: Value, path: seq<Step>, x: Value): Option<Value> {
    if path == [] then Some(x) else SetAt(v, path, x)
  }

  /** Putting the longer object into the tree is assigning its value along the path. */
  lemma {:induction false} MovedValue(s: Text, n: Node, path: seq<Step>, e: Edit, d: Dialect)
    requires Derives(s, n, d) && Navigate(n, path).Ok? && Hit(Navigate(n, path).value, e) && OfObject(e)
    ensures PutAt(ValueOf(n), path, ValueOf(e.node)) == Some(ValueOf(Move(n, e)))
    decreases |path|
  {
    hide Derives, Child, Get, Put, ValueOf, Shift;
    if path == [] {
      HitMoves(n, e);
    } else {
      var child := Child(n, path[0]).value;
      DerivedIsOrdered(s, n, d);
      TargetDerives(s, n, path, d);
      ChildDerives(s, n, path[0], d);
      TargetDerives(s, child, path[1..], d);
      MovedChild(n, path[0], e);
      MovedValue(s, child, path[1..], e, d);
      if |path| > 1 {
        ChildValue(n, path[0]);
      }
    }
  }

  lemma HitMoves(n: Node, e: Edit)
    requires Proper(e) && Hit(n, e)
    ensures Move(n, e) == e.node
  {
  }

  lemma {:induction false} AppendedEntries(soFar: Entries, pairs: Pairs, key: Text, a: nat, b: nat, child: Node)
    ensures EntriesOf(soFar, Append(pairs, Pairs(key, a, b, child, NoPairs))) ==
            DictSet(EntriesOf(soFar, pairs), key, ValueOf(child))
    decreases pairs
  {
    if pairs.Pairs? {
      AppendedEntries(DictSet(soFar, pairs.key, ValueOf(pairs.child)), pairs.tail, key, a, b, child);
    } else {
      assert EntriesOf(soFar, Pairs(key, a, b, child, NoPairs)) ==
             EntriesOf(DictSet(soFar, key, ValueOf(child)), NoPairs);
    }
  }

  lemma ExtendedValue(s: Text, n: Node, key: Text, value: Py, ascii: bool)
    requires n.Object? && 0 < n.end <= |s|
    ensures ValueOf(Extended(s, n, key, value, ascii)) ==
            Dict(DictSet(EntriesOf(NoEntries, n.pairs), ReloadedString(key, ascii), Reloaded(value, ascii)))
  {
    hide Tree, ReloadedString, Reloaded, ChunkText, KeyAt;
    var m := Member(key, value, ascii, KeyAt(s, n));
    AppendedEntries(NoEntries, n.pairs, m.key, m.keyStart, m.keyEnd, m.child);
    TreeValue(value, ascii, m.keyEnd + 2);
  }
}
