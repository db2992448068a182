/**
 Span locality: replacing the text of one value by the text of another moves the surroundings and
 changes nothing in them.  The derivation of the edited text is the old derivation with the new value
 in place of the old one and every offset past it shifted.
 */
module JsonLocality {
  import opened Text
  import opened JsonGrammar

  function Splice(s: Text, a: nat, b: nat, t: Text): (r: Text)
    requires a <= b <= |s|
    ensures |r| == |s| - (b - a) + |t|
  {
    s[..a] + t + s[b..]
  }

  /** The replacement of the value at `[a, b)` by `node`, whose text takes `len` characters. */
  datatype Edit = Edit(a: nat, b: nat, len: nat, node: Node)

  predicate Proper(e: Edit) {
    e.a < e.b && 0 < e.len && e.node.start == e.a && e.node.end == e.a + e.len
  }

  /** Where an offset of the old text, not inside the replaced value, stands in the new one. */
  function Shift(k: nat, e: Edit): nat
    requires Proper(e)
  {
    if k <= e.a then k else if k < e.b then e.a + e.len else k + e.len - (e.b - e.a)
  }

  lemma ShiftOrder(i: nat, j: nat, e: Edit)
    requires Proper(e) && i <= j
    ensures Shift(i, e) <= Shift(j, e)
    ensures i < j && (j <= e.a || e.b <= i || (i <= e.a && e.b <= j)) ==> Shift(i, e) < Shift(j, e)
  {
  }

  /** The value the edit replaces: a scalar for a scalar, a container for a container. */
  predicate Hit(n: Node, e: Edit) {
    n.start == e.a && n.end == e.b && (n.Leaf? <==> e.node.Leaf?)
  }

  function Move(n: Node, e: Edit): Node
    requires Proper(e)
  {
    match n
    case Leaf(start, end, value) =>
      if start == e.a && e.node.Leaf? then e.node else Leaf(Shift(start, e), Shift(end, e), value)
    case Array(start, end, items) =>
      if Hit(n, e) then e.node else Array(Shift(start, e), Shift(end, e), MoveItems(items, e))
    case Object(start, end, pairs) =>
      if Hit(n, e) then e.node else Object(Shift(start, e), Shift(end, e), MovePairs(pairs, e))
  }

  function MoveItems(items: Items, e: Edit): Items
    requires Proper(e)
  {
    match items
    case NoItems => NoItems
    case Items(head, tail) => Items(Move(head, e), MoveItems(tail, e))
  }

  function MovePairs(pairs: Pairs, e: Edit): Pairs
    requires Proper(e)
  {
    match pairs
    case NoPairs => NoPairs
    case Pairs(key, keyStart, keyEnd, child, tail) =>
      Pairs(key, Shift(keyStart, e), Shift(keyEnd, e), Move(child, e), MovePairs(tail, e))
  }

  /** The value at `[a, b)` is a node of the tree. */
  predicate HasNode(n: Node, e: Edit) {
    Hit(n, e) ||
    match n
    case Leaf(_, _, _) => false
    case Array(_, _, items) => ItemsHaveNode(items, e)
    case Object(_, _, pairs) => PairsHaveNode(pairs, e)
  }

  predicate ItemsHaveNode(items: Items, e: Edit) {
    match items
    case NoItems => false
    case Items(head, tail) => HasNode(head, e) || ItemsHaveNode(tail, e)
  }

  predicate PairsHaveNode(pairs: Pairs, e: Edit) {
    match pairs
    case NoPairs => false
    case Pairs(_, _, _, child, tail) => HasNode(child, e) || PairsHaveNode(tail, e)
  }

  // ---- Values stand inside their parents ----------------------------------------------------------

  lemma TokenHead(t: Text, d: Dialect)
    requires TokenValue(t, d).Some?
    ensures t != [] && !IsWs(t[0])
  {
  }

  lemma ValueStart(s: Text, n: Node, d: Dialect)
    requires Derives(s, n, d)
    ensures n.start < n.end <= |s| && !IsWs(s[n.start])
  {
    hide TokenValue, DerivesItems, DerivesPairs;
    if n.Leaf? {
      TokenHead(s[n.start..n.end], d);
    }
  }

  lemma {:induction false} NodeInside(s: Text, n: Node, e: Edit, d: Dialect)
    requires Derives(s, n, d) && HasNode(n, e)
    ensures n.start <= e.a < e.b <= n.end && !IsWs(s[e.a])
    decreases n
  {
    hide TokenValue, WsEnd;
    ValueStart(s, n, d);
    if !Hit(n, e) {
      match n
      case Array(start, end, items) => NodeInsideItems(s, items, start + 1, end - 1, e, d);
      case Object(start, end, pairs) => NodeInsidePairs(s, pairs, start + 1, end - 1, e, d);
    }
  }

  lemma {:induction false} NodeInsideItems(s: Text, items: Items, i: nat, j: nat, e: Edit, d: Dialect)
    requires i <= j <= |s| && DerivesItems(s, items, i, j, d) && ItemsHaveNode(items, e)
    ensures i <= e.a < e.b <= j && !IsWs(s[e.a])
    decreases items
  {
    hide WsEnd, Derives, HasNode;
    if HasNode(items.head, e) {
      NodeInside(s, items.head, e, d);
    } else {
      NodeInsideItems(s, items.tail, WsEnd(s, items.head.end) + 1, j, e, d);
    }
    ValueStart(s, items.head, d);
  }

  lemma {:induction false} NodeInsidePairs(s: Text, pairs: Pairs, i: nat, j: nat, e: Edit, d: Dialect)
    requires i <= j <= |s| && DerivesPairs(s, pairs, i, j, d) && PairsHaveNode(pairs, e)
    ensures i <= e.a < e.b <= j && !IsWs(s[e.a])
    decreases pairs
  {
    hide WsEnd, Derives, HasNode, StringToken;
    if HasNode(pairs.child, e) {
      NodeInside(s, pairs.child, e, d);
    } else {
      NodeInsidePairs(s, pairs.tail, WsEnd(s, pairs.child.end) + 1, j, e, d);
    }
    ValueStart(s, pairs.child, d);
  }

  // ---- One edit --------------------------------------------------------------------------------

  function After(s: Text, e: Edit, t: Text): Text
    requires e.a <= e.b <= |s|
  {
    Splice(s, e.a, e.b, t)
  }

  /** A value of `s` is replaced by the text `t`, which derives the new node where it now stands. */
  predicate Edited(s: Text, e: Edit, t: Text, d: Dialect) {
    && Proper(e) && e.b <= |s| && |t| == e.len
    && !IsWs(s[e.a]) && !IsWs(t[0]) && Derives(After(s, e, t), e.node, d)
  }

  lemma EditedFacts(s: Text, e: Edit, t: Text, d: Dialect)
    requires Edited(s, e, t, d)
    ensures Proper(e) && e.b <= |s|
    ensures Derives(After(s, e, t), e.node, d)
  {
    hide Derives;
  }

  lemma CharMoved(s: Text, e: Edit, t: Text, k: nat, d: Dialect)
    requires Edited(s, e, t, d) && k < |s| && (k < e.a || e.b <= k)
    ensures Shift(k, e) < |After(s, e, t)| && After(s, e, t)[Shift(k, e)] == s[k]
    ensures Shift(k + 1, e) == Shift(k, e) + 1
  {
    hide Derives;
  }

  lemma SliceMoved(s: Text, e: Edit, t: Text, i: nat, j: nat, d: Dialect)
    requires Edited(s, e, t, d) && i < j <= |s| && (j <= e.a || e.b <= i)
    ensures Shift(i, e) < Shift(j, e) <= |After(s, e, t)|
    ensures After(s, e, t)[Shift(i, e)..Shift(j, e)] == s[i..j]
  {
    hide Derives;
  }

  lemma {:induction false} WsMoved(s: Text, e: Edit, t: Text, i: nat, d: Dialect)
    requires Edited(s, e, t, d) && i <= |s| && (i <= e.a || e.b <= i)
    ensures WsEnd(s, i) <= e.a || e.b <= WsEnd(s, i)
    ensures i <= e.a <==> WsEnd(s, i) <= e.a
    ensures Shift(i, e) <= Shift(WsEnd(s, i), e)
    ensures Shift(i, e) <= |After(s, e, t)|
    ensures WsEnd(After(s, e, t), Shift(i, e)) == Shift(WsEnd(s, i), e)
    decreases |s| - i
  {
    hide Derives;
    var s2 := After(s, e, t);
    if i == e.a {
      assert s2[e.a] == t[0];
    } else if i < |s| {
      CharMoved(s, e, t, i, d);
      if IsWs(s[i]) {
        WsMoved(s, e, t, i + 1, d);
      }
    }
  }

  /** The edit is inside the stretch, or the stretch is wholly on one side of it. */
  predicate Clear(i: nat, j: nat, e: Edit, inside: bool) {
    inside || j <= e.a || e.b <= i
  }

  lemma MovedSpan(n: Node, e: Edit)
    requires Proper(e) && (n.Leaf? && e.node.Leaf? && n.start == e.a ==> n.end == e.b)
    ensures Move(n, e).start == Shift(n.start, e) && Move(n, e).end == Shift(n.end, e)
  {
  }

  lemma {:induction false} NodeMoved(s: Text, n: Node, e: Edit, t: Text, d: Dialect)
    requires Edited(s, e, t, d) && Derives(s, n, d) && Clear(n.start, n.end, e, HasNode(n, e))
    ensures Derives(After(s, e, t), Move(n, e), d)
    ensures Move(n, e).start == Shift(n.start, e) && Move(n, e).end == Shift(n.end, e)
    decreases n
  {
    hide TokenValue, WsEnd, DerivesItems, DerivesPairs, After, Edited, Shift;
    EditedFacts(s, e, t, d);
    ValueStart(s, n, d);
    if HasNode(n, e) {
      NodeInside(s, n, e, d);
    }
    ShiftOrder(n.start, n.end, e);
    MovedSpan(n, e);
    if Hit(n, e) {
      return;
    }
    match n
    case Leaf(start, end, value) =>
      SliceMoved(s, e, t, start, end, d);
    case Array(start, end, items) =>
      if ItemsHaveNode(items, e) {
        NodeInsideItems(s, items, start + 1, end - 1, e, d);
      }
      CharMoved(s, e, t, start, d);
      CharMoved(s, e, t, end - 1, d);
      ItemsMoved(s, items, start + 1, end - 1, e, t, d);
    case Object(start, end, pairs) =>
      if PairsHaveNode(pairs, e) {
        NodeInsidePairs(s, pairs, start + 1, end - 1, e, d);
      }
      CharMoved(s, e, t, start, d);
      CharMoved(s, e, t, end - 1, d);
      PairsMoved(s, pairs, start + 1, end - 1, e, t, d);
  }

  lemma {:induction false} ItemsMoved(s: Text, items: Items, i: nat, j: nat, e: Edit, t: Text, d: Dialect)
    requires Edited(s, e, t, d) && i <= j < |s| && DerivesItems(s, items, i, j, d)
    requires Clear(i, j, e, ItemsHaveNode(items, e))
    ensures Shift(i, e) <= Shift(j, e) <= |After(s, e, t)|
    ensures DerivesItems(After(s, e, t), MoveItems(items, e), Shift(i, e), Shift(j, e), d)
    decreases items
  {
    hide WsEnd, Derives, HasNode, After, Edited, Move, Shift;
    EditedFacts(s, e, t, d);
    if ItemsHaveNode(items, e) {
      NodeInsideItems(s, items, i, j, e, d);
    }
    WsMoved(s, e, t, i, d);
    ShiftOrder(i, j, e);
    match items
    case NoItems =>
    case Items(head, tail) =>
      ValueStart(s, head, d);
      if HasNode(head, e) {
        NodeInside(s, head, e, d);
      }
      var next := WsEnd(s, head.end);
      if ItemsHaveNode(tail, e) {
        NodeInsideItems(s, tail, next + 1, j, e, d);
      }
      NodeMoved(s, head, e, t, d);
      WsMoved(s, e, t, head.end, d);
      ShiftOrder(next, j, e);
      if tail.Items? {
        CharMoved(s, e, t, next, d);
        ItemsMoved(s, tail, next + 1, j, e, t, d);
      }
  }

  lemma KeySpans(s: Text, key: Text, keyStart: nat, keyEnd: nat, i: nat, child: nat)
    requires i <= |s| && DerivesKey(s, key, keyStart, keyEnd, i, child)
    ensures i <= keyStart < keyEnd < child <= |s|
  {
  }

  lemma KeyMoved(s: Text, e: Edit, t: Text, key: Text, keyStart: nat, keyEnd: nat, i: nat, child: nat, d: Dialect)
    requires Edited(s, e, t, d) && i <= |s| && DerivesKey(s, key, keyStart, keyEnd, i, child)
    requires child <= e.a || e.b <= i
    ensures Shift(i, e) <= |After(s, e, t)|
    ensures DerivesKey(After(s, e, t), key, Shift(keyStart, e), Shift(keyEnd, e), Shift(i, e), Shift(child, e))
  {
    hide Derives, WsEnd, StringToken, After, Edited, Shift;
    EditedFacts(s, e, t, d);
    WsMoved(s, e, t, i, d);
    ShiftOrder(keyStart, keyEnd, e);
    SliceMoved(s, e, t, keyStart, keyEnd, d);
    WsMoved(s, e, t, keyEnd, d);
    var colon := WsEnd(s, keyEnd);
    CharMoved(s, e, t, colon, d);
    WsMoved(s, e, t, colon + 1, d);
  }

  lemma {:induction false} PairsMoved(s: Text, pairs: Pairs, i: nat, j: nat, e: Edit, t: Text, d: Dialect)
    requires Edited(s, e, t, d) && i <= j < |s| && DerivesPairs(s, pairs, i, j, d)
    requires Clear(i, j, e, PairsHaveNode(pairs, e))
    ensures Shift(i, e) <= Shift(j, e) <= |After(s, e, t)|
    ensures DerivesPairs(After(s, e, t), MovePairs(pairs, e), Shift(i, e), Shift(j, e), d)
    decreases pairs
  {
    hide WsEnd, Derives, HasNode, StringToken, DerivesKey, After, Edited, Move, Shift;
    EditedFacts(s, e, t, d);
    if PairsHaveNode(pairs, e) {
      NodeInsidePairs(s, pairs, i, j, e, d);
    }
    WsMoved(s, e, t, i, d);
    ShiftOrder(i, j, e);
    match pairs
    case NoPairs =>
    case Pairs(key, keyStart, keyEnd, child, tail) =>
      ValueStart(s, child, d);
      if HasNode(child, e) {
        NodeInside(s, child, e, d);
      }
      var next := WsEnd(s, child.end);
      if PairsHaveNode(tail, e) {
        NodeInsidePairs(s, tail, next + 1, j, e, d);
      }
      KeySpans(s, key, keyStart, keyEnd, i, child.start);
      KeyMoved(s, e, t, key, keyStart, keyEnd, i, child.start, d);
      NodeMoved(s, child, e, t, d);
      WsMoved(s, e, t, child.end, d);
      ShiftOrder(next, j, e);
      if tail.Pairs? {
        CharMoved(s, e, t, next, d);
        PairsMoved(s, tail, next + 1, j, e, t, d);
      }
  }

  /** Replacing a value by a value re-derives the whole document around it, shifted. */
  lemma DocumentMoved(s: Text, root: Node, e: Edit, t: Text, d: Dialect)
    requires Edited(s, e, t, d) && DerivesDocument(s, root, d) && HasNode(root, e)
    ensures DerivesDocument(After(s, e, t), Move(root, e), d)
  {
    hide WsEnd, Derives, HasNode, Move;
    ValueStart(s, root, d);
    NodeInside(s, root, e, d);
    NodeMoved(s, root, e, t, d);
    WsMoved(s, e, t, 0, d);
    WsMoved(s, e, t, root.end, d);
  }

  // ---- Scalars -------------------------------------------------------------------------------------

  /** The scalar at `[a, b)` is one of the leaves of the tree. */
  predicate HasLeaf(n: Node, a: nat, b: nat) {
    match n
    case Leaf(start, end, _) => start == a && end == b
    case Array(_, _, items) => ItemsHaveLeaf(items, a, b)
    case Object(_, _, pairs) => PairsHaveLeaf(pairs, a, b)
  }

  predicate ItemsHaveLeaf(items: Items, a: nat, b: nat) {
    match items
    case NoItems => false
    case Items(head, tail) => HasLeaf(head, a, b) || ItemsHaveLeaf(tail, a, b)
  }

  predicate PairsHaveLeaf(pairs: Pairs, a: nat, b: nat) {
    match pairs
    case NoPairs => false
    case Pairs(_, _, _, child, tail) => HasLeaf(child, a, b) || PairsHaveLeaf(tail, a, b)
  }

  lemma {:induction false} LeafIsNode(n: Node, e: Edit)
    requires e.node.Leaf? && HasLeaf(n, e.a, e.b)
    ensures HasNode(n, e)
    decreases n
  {
    match n
    case Leaf(_, _, _) =>
    case Array(_, _, items) => LeafIsItem(items, e);
    case Object(_, _, pairs) => LeafIsMember(pairs, e);
  }

  lemma {:induction false} LeafIsItem(items: Items, e: Edit)
    requires e.node.Leaf? && ItemsHaveLeaf(items, e.a, e.b)
    ensures ItemsHaveNode(items, e)
    decreases items
  {
    if HasLeaf(items.head, e.a, e.b) {
      LeafIsNode(items.head, e);
    } else {
      LeafIsItem(items.tail, e);
    }
  }

  lemma {:induction false} LeafIsMember(pairs: Pairs, e: Edit)
    requires e.node.Leaf? && PairsHaveLeaf(pairs, e.a, e.b)
    ensures PairsHaveNode(pairs, e)
    decreases pairs
  {
    if HasLeaf(pairs.child, e.a, e.b) {
      LeafIsNode(pairs.child, e);
    } else {
      LeafIsMember(pairs.tail, e);
    }
  }

  /** Replacing a leaf's token by another scalar token. */
  lemma LeafMoved(s: Text, root: Node, e: Edit, t: Text, d: Dialect)
    requires Proper(e) && e.node.Leaf? && |t| == e.len && TokenValue(t, d) == Some(e.node.value)
    requires DerivesDocument(s, root, d) && HasLeaf(root, e.a, e.b)
    ensures e.b <= |s| && DerivesDocument(After(s, e, t), Move(root, e), d)
  {
    hide WsEnd, HasLeaf, HasNode, Move, DerivesItems, DerivesPairs, TokenValue;
    LeafIsNode(root, e);
    NodeInside(s, root, e, d);
    TokenHead(t, d);
    assert After(s, e, t)[e.a..e.a + e.len] == t;
    DocumentMoved(s, root, e, t, d);
  }
}
