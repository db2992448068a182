/**
 Rewriting identifier bases in a JSON text commutes with decoding it: the rewritten text derives the
 same tree, with every string value and every key replaced.
 */
module IdentifierBase {
  import opened Text
  import opened JsonStrings
  import opened JsonNumbers
  import opened JsonGrammar
  import opened JsonParser
  import opened IdentifierText
  import opened IdentifierTokens

  /** A quoted stretch of the text. */
  predicate IsQuoted(t: Text) {
    |t| >= 2 && t[0] == QUOTE && t[|t| - 1] == QUOTE
  }

  /** A whole token, quotes included; one that does not decode never occurs in valid JSON. */
  function RewriteToken(t: Text): (r: Text)
    requires |t| >= 2
    ensures |r| >= 2 && (t[0] == QUOTE ==> r[0] == QUOTE)
  {
    if Decode(t[1..|t| - 1]).Some? then Quoted(RewriteBody(t[1..|t| - 1])) else t
  }

  /** How many old bases the token's decoded string holds. */
  function CountToken(t: Text): nat
    requires |t| >= 2
  {
    match Decode(t[1..|t| - 1]) case Some(s) => Count(s) case None => 0
  }

  /** The text from `i` on, outside any string, with its string tokens rewritten. */
  function Rewrite(s: Text, i: nat): Text
    decreases |s| - i
  {
    if i >= |s| then []
    else if s[i] != QUOTE then [s[i]] + Rewrite(s, i + 1)
    else
      match StringEnd(s, i + 1)
      case None => s[i..]
      case Some(e) => RewriteToken(s[i..e]) + Rewrite(s, e)
  }

  function CountText(s: Text, i: nat): nat
    decreases |s| - i
  {
    if i >= |s| then 0
    else if s[i] != QUOTE then CountText(s, i + 1)
    else
      match StringEnd(s, i + 1)
      case None => 0
      case Some(e) => CountToken(s[i..e]) + CountText(s, e)
  }

  // ---- Offsets in the rewritten text ------------------------------------------------------------------

  /** Where offset `k` of `s` stands in the rewritten text. */
  function Place(s: Text, k: nat): int {
    |Rewrite(s, 0)| - |Rewrite(s, k)|
  }

  /** The rewritten text continues from `Place(s, k)` as `s` does from `k`, which is outside strings. */
  predicate Boundary(s: Text, k: nat) {
    k <= |s| && 0 <= Place(s, k) && Rewrite(s, 0)[Place(s, k)..] == Rewrite(s, k)
  }

  lemma StartBoundary(s: Text)
    ensures Boundary(s, 0) && Place(s, 0) == 0
  {
    hide Rewrite;
    assert Rewrite(s, 0)[0..] == Rewrite(s, 0);
  }

  lemma CharBoundary(s: Text, k: nat)
    requires Boundary(s, k) && k < |s| && s[k] != QUOTE
    ensures Boundary(s, k + 1) && Place(s, k + 1) == Place(s, k) + 1
    ensures Place(s, k) < |Rewrite(s, 0)| && Rewrite(s, 0)[Place(s, k)] == s[k]
  {
    var out, p := Rewrite(s, 0), Place(s, k);
    assert out[p..] == [s[k]] + Rewrite(s, k + 1);
    assert out[p + 1..] == out[p..][1..];
  }

  lemma TokenBoundary(s: Text, k: nat, e: nat)
    requires Boundary(s, k) && k < |s| && s[k] == QUOTE && StringEnd(s, k + 1) == Some(e)
    ensures Boundary(s, e) && Place(s, e) == Place(s, k) + |RewriteToken(s[k..e])| <= |Rewrite(s, 0)|
    ensures Rewrite(s, 0)[Place(s, k)..Place(s, e)] == RewriteToken(s[k..e])
  {
    hide RewriteToken, StringEnd, Rewrite;
    RewriteAtToken(s, k, e);
    SplitAt(Rewrite(s, 0), Place(s, k), RewriteToken(s[k..e]), Rewrite(s, e));
  }

  lemma RewriteAtToken(s: Text, k: nat, e: nat)
    requires k < |s| && s[k] == QUOTE && StringEnd(s, k + 1) == Some(e)
    ensures Rewrite(s, k) == RewriteToken(s[k..e]) + Rewrite(s, e)
  {
    hide RewriteToken, StringEnd;
  }

  lemma SplitAt(out: Text, p: nat, t: Text, rest: Text)
    requires p <= |out| && out[p..] == t + rest
    ensures |out| == p + |t| + |rest| && out[p + |t|..] == rest && out[p..p + |t|] == t
  {
    assert out[p + |t|..] == out[p..][|t|..];
    assert out[p..p + |t|] == out[p..][..|t|];
  }

  lemma {:induction false} PlainBoundary(s: Text, i: nat, j: nat)
    requires Boundary(s, i) && i <= j <= |s| && forall k :: i <= k < j ==> s[k] != QUOTE
    ensures Boundary(s, j) && Place(s, j) == Place(s, i) + (j - i)
    ensures Place(s, j) <= |Rewrite(s, 0)| && Rewrite(s, 0)[Place(s, i)..Place(s, j)] == s[i..j]
    decreases j - i
  {
    hide Rewrite;
    var out := Rewrite(s, 0);
    if i < j {
      CharBoundary(s, i);
      PlainBoundary(s, i + 1, j);
      assert out[Place(s, i)..Place(s, j)] == [out[Place(s, i)]] + out[Place(s, i + 1)..Place(s, j)];
      assert s[i..j] == [s[i]] + s[i + 1..j];
    } else {
      assert s[i..j] == [];
    }
  }

  /** Whitespace is kept, and what follows it is still no whitespace. */
  lemma WsPlaced(s: Text, i: nat)
    requires Boundary(s, i)
    ensures var y := WsEnd(s, i);
            && Boundary(s, y) && 0 <= Place(s, i) <= Place(s, y) <= |Rewrite(s, 0)|
            && WsEnd(Rewrite(s, 0), Place(s, i)) == Place(s, y)
            && (y == |s| ==> Place(s, y) == |Rewrite(s, 0)|)
            && (y < |s| ==> Place(s, y) < |Rewrite(s, 0)|)
  {
    hide Rewrite, WsEnd;
    var out, y := Rewrite(s, 0), WsEnd(s, i);
    WsEndIsBlank(s, i);
    PlainBoundary(s, i, y);
    forall k | Place(s, i) <= k < Place(s, y) ensures IsWs(out[k]) {
      assert out[k] == out[Place(s, i)..Place(s, y)][k - Place(s, i)] == s[i..y][k - Place(s, i)];
    }
    AfterWs(s, y);
    WsEndAfterBlank(out, Place(s, i), Place(s, y));
  }

  lemma AfterWs(s: Text, y: nat)
    requires Boundary(s, y) && (y < |s| ==> !IsWs(s[y]))
    ensures y == |s| ==> Place(s, y) == |Rewrite(s, 0)|
    ensures y < |s| ==> Place(s, y) < |Rewrite(s, 0)| && !IsWs(Rewrite(s, 0)[Place(s, y)])
  {
    var out, p := Rewrite(s, 0), Place(s, y);
    if y < |s| {
      assert out[p..] == Rewrite(s, y);
      assert out[p] == out[p..][0];
      if s[y] == QUOTE && StringEnd(s, y + 1).Some? {
        var t := RewriteToken(s[y..StringEnd(s, y + 1).value]);
        assert Rewrite(s, y)[0] == t[0];
      }
    }
  }

  // ---- The rewritten tree ------------------------------------------------------------------------------

  function ReplaceValue(v: Value): Value {
    match v case Str(s) => Str(Replace(s)) case _ => v
  }

  function PlaceNat(s: Text, k: nat): nat {
    if Place(s, k) < 0 then 0 else Place(s, k)
  }

  /** The tree with every string and key replaced, and every span carried over. */
  function Rewritten(s: Text, n: Node): Node {
    match n
    case Leaf(start, end, v) => Leaf(PlaceNat(s, start), PlaceNat(s, end), ReplaceValue(v))
    case Array(start, end, items) => Array(PlaceNat(s, start), PlaceNat(s, end), RewrittenItems(s, items))
    case Object(start, end, pairs) => Object(PlaceNat(s, start), PlaceNat(s, end), RewrittenPairs(s, pairs))
  }

  function RewrittenItems(s: Text, items: Items): Items {
    match items
    case NoItems => NoItems
    case Items(head, tail) => Items(Rewritten(s, head), RewrittenItems(s, tail))
  }

  function RewrittenPairs(s: Text, pairs: Pairs): Pairs {
    match pairs
    case NoPairs => NoPairs
    case Pairs(key, a, b, child, tail) =>
      Pairs(Replace(key), PlaceNat(s, a), PlaceNat(s, b), Rewritten(s, child), RewrittenPairs(s, tail))
  }

  function CountValue(v: Value): nat {
    match v case Str(s) => Count(s) case _ => 0
  }

  /** The old bases in all the decoded strings and keys of a tree. */
  function CountNode(n: Node): nat {
    match n
    case Leaf(_, _, v) => CountValue(v)
    case Array(_, _, items) => CountItems(items)
    case Object(_, _, pairs) => CountPairs(pairs)
  }

  function CountItems(items: Items): nat {
    match items case NoItems => 0 case Items(head, tail) => CountNode(head) + CountItems(tail)
  }

  function CountPairs(pairs: Pairs): nat {
    match pairs
    case NoPairs => 0
    case Pairs(key, _, _, child, tail) => Count(key) + CountNode(child) + CountPairs(tail)
  }

  lemma QuotedToken(t: Text)
    requires IsQuoted(t)
    ensures StringToken(t) == Decode(t[1..|t| - 1])
  {
  }

  /** A string token of the text: where it ends, what it becomes, and what it counts. */
  lemma StringPlaced(s: Text, a: nat, b: nat)
    requires Boundary(s, a) && a <= b <= |s| && StringToken(s[a..b]).Some?
    ensures a < b && s[a] == QUOTE && Boundary(s, b) && 0 <= Place(s, a) < Place(s, b) <= |Rewrite(s, 0)|
    ensures StringToken(Rewrite(s, 0)[Place(s, a)..Place(s, b)]) == Some(Replace(StringToken(s[a..b]).value))
    ensures CountText(s, a) == Count(StringToken(s[a..b]).value) + CountText(s, b)
  {
    hide Decode, StringEnd, Boundary, Place, RewriteBody, Replace, Count;
    ParseStringComplete(s, a, b);
    var t := s[a..b];
    assert IsQuoted(t);
    var body := t[1..|t| - 1];
    assert StringEnd(s, a + 1) == Some(b) && Decode(body).Some?;
    TokenBoundary(s, a, b);
    RewriteDecodes(body);
    var r := RewriteToken(t);
    assert r[1..|r| - 1] == RewriteBody(body);
    QuotedToken(r);
    QuotedToken(t);
    PlaceGrows(s, a, b);
  }

  lemma PlaceGrows(s: Text, a: nat, b: nat)
    requires Boundary(s, a) && Place(s, b) > Place(s, a)
    ensures 0 <= Place(s, a) < Place(s, b)
  {
    hide Rewrite;
  }

  lemma ScalarHasNoQuote(t: Text, d: Dialect)
    requires TokenValue(t, d).Some? && t[0] != QUOTE
    ensures forall k :: 0 <= k < |t| ==> t[k] != QUOTE
  {
    if !IsConstant(t, d) {
      assert forall k :: 0 <= k < |t| ==> IsNumChar(t[k]);
    }
  }

  lemma {:induction false} PlainCount(s: Text, i: nat, j: nat)
    requires i <= j <= |s| && forall k :: i <= k < j ==> s[k] != QUOTE
    ensures CountText(s, i) == CountText(s, j)
    decreases j - i
  {
    if i < j {
      PlainCount(s, i + 1, j);
    }
  }

  lemma ScalarPlaced(s: Text, a: nat, b: nat, d: Dialect)
    requires Boundary(s, a) && a < b <= |s| && TokenValue(s[a..b], d).Some?
    ensures Boundary(s, b) && 0 <= Place(s, a) < Place(s, b) <= |Rewrite(s, 0)|
    ensures TokenValue(Rewrite(s, 0)[Place(s, a)..Place(s, b)], d) == Some(ReplaceValue(TokenValue(s[a..b], d).value))
    ensures CountText(s, a) == CountValue(TokenValue(s[a..b], d).value) + CountText(s, b)
  {
    hide Boundary, Place, Rewrite, CountText, StringToken, NumberValue, Replace, Count;
    var t := s[a..b];
    assert t[0] == s[a];
    if t[0] == QUOTE {
      StringPlaced(s, a, b);
      QuoteFirst(Rewrite(s, 0)[Place(s, a)..Place(s, b)]);
    } else {
      ScalarHasNoQuote(t, d);
      forall k | a <= k < b ensures s[k] != QUOTE {
        assert s[k] == t[k - a];
      }
      PlainBoundary(s, a, b);
      PlaceGrows(s, a, b);
      PlainCount(s, a, b);
    }
  }

  lemma QuoteFirst(t: Text)
    requires StringToken(t).Some?
    ensures t != [] && t[0] == QUOTE
  {
  }

  lemma CharPlaced(s: Text, k: nat)
    requires Boundary(s, k) && k < |s| && s[k] != QUOTE
    ensures Boundary(s, k + 1) && 0 <= Place(s, k) && Place(s, k + 1) == Place(s, k) + 1 <= |Rewrite(s, 0)|
    ensures Rewrite(s, 0)[Place(s, k)] == s[k]
    ensures CountText(s, k) == CountText(s, k + 1)
  {
    hide Rewrite;
    CharBoundary(s, k);
  }

  lemma WsCounted(s: Text, i: nat)
    requires i <= |s|
    ensures CountText(s, i) == CountText(s, WsEnd(s, i))
  {
    hide WsEnd, CountText;
    WsEndIsBlank(s, i);
    PlainCount(s, i, WsEnd(s, i));
  }

  /** From one boundary to the next: the node, rewritten, and its share of the count. */
  predicate Carried(s: Text, n: Node, d: Dialect) {
    && Boundary(s, n.end) && 0 <= Place(s, n.start) < Place(s, n.end) <= |Rewrite(s, 0)|
    && Derives(Rewrite(s, 0), Rewritten(s, n), d)
    && CountText(s, n.start) == CountNode(n) + CountText(s, n.end)
  }

  lemma {:induction false} NodeRewritten(s: Text, n: Node, d: Dialect)
    requires Derives(s, n, d) && Boundary(s, n.start)
    ensures Carried(s, n, d)
    decreases n
  {
    hide TokenValue, WsEnd, Boundary, Place, Rewrite, CountText, DerivesItems, DerivesPairs;
    match n
    case Leaf(start, end, _) =>
      ScalarPlaced(s, start, end, d);
    case Array(start, end, items) =>
      CharPlaced(s, start);
      ItemsRewritten(s, items, start + 1, end - 1, d);
      CharPlaced(s, end - 1);
    case Object(start, end, pairs) =>
      CharPlaced(s, start);
      PairsRewritten(s, pairs, start + 1, end - 1, d);
      CharPlaced(s, end - 1);
  }

  lemma {:induction false} ItemsRewritten(s: Text, items: Items, i: nat, j: nat, d: Dialect)
    requires i <= j <= |s| && DerivesItems(s, items, i, j, d) && Boundary(s, i)
    ensures Boundary(s, j) && 0 <= Place(s, i) <= Place(s, j) <= |Rewrite(s, 0)|
    ensures DerivesItems(Rewrite(s, 0), RewrittenItems(s, items), Place(s, i), Place(s, j), d)
    ensures CountText(s, i) == CountItems(items) + CountText(s, j)
    decreases items
  {
    hide WsEnd, Boundary, Place, Rewrite, CountText, Derives;
    WsPlaced(s, i);
    WsCounted(s, i);
    match items
    case NoItems =>
    case Items(head, tail) =>
      NodeRewritten(s, head, d);
      RewrittenSpan(s, head);
      DerivedSpan(s, head, d);
      WsPlaced(s, head.end);
      WsCounted(s, head.end);
      var next := WsEnd(s, head.end);
      if tail.Items? {
        CharPlaced(s, next);
        ItemsRewritten(s, tail, next + 1, j, d);
      }
  }

  lemma RewrittenSpan(s: Text, n: Node)
    ensures Rewritten(s, n).start == PlaceNat(s, n.start) && Rewritten(s, n).end == PlaceNat(s, n.end)
  {
    hide Place;
  }

  lemma DerivedSpan(s: Text, n: Node, d: Dialect)
    requires Derives(s, n, d)
    ensures n.start < n.end <= |s|
  {
  }

  lemma KeyRewritten(s: Text, key: Text, keyStart: nat, keyEnd: nat, i: nat, child: nat)
    requires i <= |s| && DerivesKey(s, key, keyStart, keyEnd, i, child) && Boundary(s, i)
    ensures Boundary(s, child) && 0 <= Place(s, i) <= Place(s, child) <= |Rewrite(s, 0)|
    ensures 0 <= Place(s, keyStart) && 0 <= Place(s, keyEnd)
    ensures DerivesKey(Rewrite(s, 0), Replace(key), Place(s, keyStart), Place(s, keyEnd), Place(s, i), Place(s, child))
    ensures CountText(s, i) == Count(key) + CountText(s, child)
  {
    hide WsEnd, Boundary, Place, Rewrite, CountText, StringToken;
    WsPlaced(s, i);
    WsCounted(s, i);
    StringPlaced(s, keyStart, keyEnd);
    WsPlaced(s, keyEnd);
    WsCounted(s, keyEnd);
    var colon := WsEnd(s, keyEnd);
    CharPlaced(s, colon);
    WsPlaced(s, colon + 1);
    WsCounted(s, colon + 1);
  }

  lemma {:induction false} PairsRewritten(s: Text, pairs: Pairs, i: nat, j: nat, d: Dialect)
    requires i <= j <= |s| && DerivesPairs(s, pairs, i, j, d) && Boundary(s, i)
    ensures Boundary(s, j) && 0 <= Place(s, i) <= Place(s, j) <= |Rewrite(s, 0)|
    ensures DerivesPairs(Rewrite(s, 0), RewrittenPairs(s, pairs), Place(s, i), Place(s, j), d)
    ensures CountText(s, i) == CountPairs(pairs) + CountText(s, j)
    decreases pairs
  {
    hide WsEnd, Boundary, Place, Rewrite, CountText, Derives, DerivesKey;
    match pairs
    case NoPairs =>
      WsPlaced(s, i);
      WsCounted(s, i);
    case Pairs(key, keyStart, keyEnd, child, tail) =>
      KeyRewritten(s, key, keyStart, keyEnd, i, child.start);
      NodeRewritten(s, child, d);
      RewrittenSpan(s, child);
      DerivedSpan(s, child, d);
      WsPlaced(s, child.end);
      WsCounted(s, child.end);
      var next := WsEnd(s, child.end);
      if tail.Pairs? {
        CharPlaced(s, next);
        PairsRewritten(s, tail, next + 1, j, d);
      }
  }

  /** Rewriting a document's text rewrites its tree, and the count is the tree's. */
  lemma DocumentRewritten(s: Text, root: Node, d: Dialect)
    requires DerivesDocument(s, root, d)
    ensures DerivesDocument(Rewrite(s, 0), Rewritten(s, root), d)
    ensures CountText(s, 0) == CountNode(root)
  {
    hide WsEnd, Boundary, Place, Rewrite, CountText, Derives;
    StartBoundary(s);
    WsPlaced(s, 0);
    WsCounted(s, 0);
    NodeRewritten(s, root, d);
    RewrittenSpan(s, root);
    DerivedSpan(s, root, d);
    WsPlaced(s, root.end);
    WsCounted(s, root.end);
    NothingLeft(s);
  }

  lemma NothingLeft(s: Text)
    ensures CountText(s, |s|) == 0
  {
  }

  // ---- A second pass ----------------------------------------------------------------------------------

  lemma {:induction false} RewrittenCounts(s: Text, n: Node)
    ensures CountNode(Rewritten(s, n)) == 0
    decreases n
  {
    hide Place;
    match n
    case Leaf(_, _, v) =>
      if v.Str? {
        NoneLeft(v.s);
        CountIsOccurrences(Replace(v.s));
      }
    case Array(_, _, items) => RewrittenItemsCount(s, items);
    case Object(_, _, pairs) => RewrittenPairsCount(s, pairs);
  }

  lemma {:induction false} RewrittenItemsCount(s: Text, items: Items)
    ensures CountItems(RewrittenItems(s, items)) == 0
    decreases items
  {
    if items.Items? {
      RewrittenCounts(s, items.head);
      RewrittenItemsCount(s, items.tail);
    }
  }

  lemma {:induction false} RewrittenPairsCount(s: Text, pairs: Pairs)
    ensures CountPairs(RewrittenPairs(s, pairs)) == 0
    decreases pairs
  {
    if pairs.Pairs? {
      NoneLeft(pairs.key);
      CountIsOccurrences(Replace(pairs.key));
      RewrittenCounts(s, pairs.child);
      RewrittenPairsCount(s, pairs.tail);
    }
  }

  lemma ClosedToken(t: Text)
    requires IsQuoted(t) && CountToken(t) == 0
    ensures RewriteToken(t) == t
  {
    hide Decode, RewriteBody;
    var body := t[1..|t| - 1];
    if Decode(body).Some? {
      NothingToRewrite(body);
      assert t == [QUOTE] + body + [QUOTE];
    }
  }

  lemma TokenKept(s: Text, i: nat, e: nat)
    requires i < |s| && s[i] == QUOTE && StringEnd(s, i + 1) == Some(e) && CountToken(s[i..e]) == 0
    ensures RewriteToken(s[i..e]) + s[e..] == s[i..]
  {
    hide StringEnd, RewriteToken, CountToken;
    CutSlice(s, i, e);
    ClosedToken(s[i..e]);
  }

  lemma CutSlice(s: Text, i: nat, e: nat)
    requires i < e <= |s|
    ensures |s[i..e]| == e - i && s[i..e][0] == s[i] && s[i..e][e - i - 1] == s[e - 1]
    ensures s[i..e] + s[e..] == s[i..]
  {
  }

  lemma {:induction false} NothingCounted(s: Text, i: nat)
    requires i <= |s| && CountText(s, i) == 0
    ensures Rewrite(s, i) == s[i..]
    decreases |s| - i
  {
    hide StringEnd, RewriteToken, CountToken;
    if i < |s| {
      if s[i] != QUOTE {
        NothingCounted(s, i + 1);
      } else if StringEnd(s, i + 1).Some? {
        var e := StringEnd(s, i + 1).value;
        NothingCounted(s, e);
        TokenKept(s, i, e);
      }
    }
  }

  /** The whole promise: meaning replaced, nothing left to replace, and a second pass is the identity. */
  lemma RewriteIsComplete(s: Text, root: Node, d: Dialect)
    requires DerivesDocument(s, root, d)
    ensures DerivesDocument(Rewrite(s, 0), Rewritten(s, root), d)
    ensures CountText(s, 0) == CountNode(root)
    ensures CountText(Rewrite(s, 0), 0) == 0
    ensures Rewrite(Rewrite(s, 0), 0) == Rewrite(s, 0)
    ensures CountText(s, 0) == 0 ==> Rewrite(s, 0) == s
  {
    hide Rewrite, CountText, DerivesDocument, CountNode, Rewritten;
    var out := Rewrite(s, 0);
    DocumentRewritten(s, root, d);
    DocumentRewritten(out, Rewritten(s, root), d);
    RewrittenCounts(s, root);
    NothingCounted(out, 0);
    assert out[0..] == out;
    if CountText(s, 0) == 0 {
      NothingCounted(s, 0);
      assert s[0..] == s;
    }
  }
}
