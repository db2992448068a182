/**
 `splice_scalars`: editing scalars in place, in descending order of position, behind a re-parse gate.

 The gate is shown redundant, except for exactly the values that `json.dumps` and `json.loads`
 together do not return unchanged.
 */
module JsonSplice {
  import opened Text
  import opened JsonGrammar
  import opened JsonParser
  import opened JsonPaths
  import opened JsonValues
  import opened JsonLocality

  datatype PathEdit = PathEdit(path: seq<Step>, value: Py)

  datatype Span = Span(start: nat, end: nat, text: Text)

  /** `json.loads`: the wider grammar, decoded. */
  function Loads(s: Text): Result<Value> {
    match ParseDocument(s, Lenient) case Ok(root) => Ok(ValueOf(root)) case Err(_) => Err(ValueError)
  }

  /** Same value and same type: the source bytes are left alone. */
  predicate Unchanged(was: Value, p: Py) {
    IsScalar(p) && was == PyValue(p)
  }

  // ---- Planning ------------------------------------------------------------------------------------

  function PlanOne(root: Node, e: PathEdit, ascii: bool): Result<seq<Span>> {
    match Navigate(root, e.path)
    case Err(error) => Err(error)
    case Ok(n) =>
      if !n.Leaf? then Err(SurgicalError)
      else if Unchanged(n.value, e.value) then Ok([])
      else if !IsScalar(e.value) then Err(SurgicalError)
      else Ok([Span(n.start, n.end, Dump(e.value, ascii))])
  }

  function Plan(root: Node, edits: seq<PathEdit>, ascii: bool): Result<seq<Span>> {
    if edits == [] then Ok([])
    else
      match Plan(root, edits[..|edits| - 1], ascii)
      case Err(error) => Err(error)
      case Ok(spans) =>
        match PlanOne(root, edits[|edits| - 1], ascii)
        case Err(error) => Err(error)
        case Ok(more) => Ok(spans + more)
  }

  function Insert(x: Span, spans: seq<Span>): seq<Span> {
    if spans == [] || x.start < spans[0].start then [x] + spans else [spans[0]] + Insert(x, spans[1..])
  }

  /** `sorted(spans, key=start)`. */
  function Sorted(spans: seq<Span>): seq<Span> {
    if spans == [] then [] else Insert(spans[|spans| - 1], Sorted(spans[..|spans| - 1]))
  }

  predicate Disjoint(spans: seq<Span>) {
    forall k :: 0 < k < |spans| ==> spans[k - 1].end <= spans[k].start
  }

  /** In bounds, non-empty, in order and without overlap. */
  predicate Placed(raw: Text, spans: seq<Span>, from: nat) {
    if spans == [] then from <= |raw|
    else from <= spans[0].start < spans[0].end <= |raw| && Placed(raw, spans[1..], spans[0].end)
  }

  /** The splices, last span first. */
  function SpliceDown(raw: Text, spans: seq<Span>, from: nat): (r: Text)
    requires Placed(raw, spans, from)
    ensures |r| >= from && r[..from] == raw[..from]
    decreases |spans|
  {
    if spans == [] then raw
    else
      var x := spans[0];
      var later := SpliceDown(raw, spans[1..], x.end);
      assert later[..x.end] == raw[..x.end];
      assert later[..x.start] == raw[..x.end][..x.start];
      Splice(later, x.start, x.end, x.text)
  }

  /** The original text with the spans replaced and nothing else: what every byte must look like. */
  function Weave(raw: Text, from: nat, spans: seq<Span>): Text
    requires Placed(raw, spans, from)
    decreases |spans|
  {
    if spans == [] then raw[from..]
    else raw[from..spans[0].start] + spans[0].text + Weave(raw, spans[0].end, spans[1..])
  }

  lemma {:induction false} SplicedIsWoven(raw: Text, spans: seq<Span>, from: nat)
    requires Placed(raw, spans, from)
    ensures SpliceDown(raw, spans, from) == raw[..from] + Weave(raw, from, spans)
    decreases |spans|
  {
    if spans != [] {
      var x := spans[0];
      SplicedIsWoven(raw, spans[1..], x.end);
      var w := Weave(raw, x.end, spans[1..]);
      var later := raw[..x.end] + w;
      assert later[..x.start] == raw[..x.start];
      assert later[x.end..] == w;
      assert raw[..x.start] == raw[..from] + raw[from..x.start];
    } else {
      assert raw == raw[..from] + raw[from..];
    }
  }

  // ---- The tree of the spliced text ----------------------------------------------------------------

  predicate Tokens(root: Node, spans: seq<Span>, d: Dialect) {
    forall k :: 0 <= k < |spans| ==>
      HasLeaf(root, spans[k].start, spans[k].end) && TokenValue(spans[k].text, d).Some?
  }

  function EditOf(x: Span, d: Dialect): Edit
    requires TokenValue(x.text, d).Some?
  {
    Edit(x.start, x.end, |x.text|, Leaf(x.start, x.start + |x.text|, TokenValue(x.text, d).value))
  }

  /** What the new tokens say, by start offset. */
  function NewValues(spans: seq<Span>, d: Dialect): map<nat, Value> {
    if spans == [] then map[]
    else
      match TokenValue(spans[0].text, d)
      case None => NewValues(spans[1..], d)
      case Some(v) => NewValues(spans[1..], d)[spans[0].start := v]
  }

  /** Same shape, same keys, same values; and leaves up to `h` start at the same offsets. */
  predicate Twin(n: Node, m: Node, h: nat) {
    match (n, m)
    case (Leaf(a, _, v), Leaf(b, _, w)) => v == w && (a <= h || b <= h ==> a == b)
    case (Array(_, _, x), Array(_, _, y)) => TwinItems(x, y, h)
    case (Object(_, _, x), Object(_, _, y)) => TwinPairs(x, y, h)
    case _ => false
  }

  predicate TwinItems(x: Items, y: Items, h: nat) {
    match (x, y)
    case (NoItems, NoItems) => true
    case (Items(n, s), Items(m, t)) => Twin(n, m, h) && TwinItems(s, t, h)
    case _ => false
  }

  predicate TwinPairs(x: Pairs, y: Pairs, h: nat) {
    match (x, y)
    case (NoPairs, NoPairs) => true
    case (Pairs(k, _, _, n, s), Pairs(l, _, _, m, t)) => k == l && Twin(n, m, h) && TwinPairs(s, t, h)
    case _ => false
  }

  lemma {:induction false} TwinSelf(n: Node, h: nat)
    ensures Twin(n, n, h)
    decreases n
  {
    match n
    case Leaf(_, _, _) =>
    case Array(_, _, items) => TwinSelfItems(items, h);
    case Object(_, _, pairs) => TwinSelfPairs(pairs, h);
  }

  lemma {:induction false} TwinSelfItems(x: Items, h: nat)
    ensures TwinItems(x, x, h)
    decreases x
  {
    if x.Items? {
      TwinSelf(x.head, h);
      TwinSelfItems(x.tail, h);
    }
  }

  lemma {:induction false} TwinSelfPairs(x: Pairs, h: nat)
    ensures TwinPairs(x, x, h)
    decreases x
  {
    if x.Pairs? {
      TwinSelf(x.child, h);
      TwinSelfPairs(x.tail, h);
    }
  }

  lemma {:induction false} TwinValue(n: Node, m: Node, h: nat)
    requires Twin(n, m, h)
    ensures ValueOf(n) == ValueOf(m)
    decreases n
  {
    match n
    case Leaf(_, _, _) =>
    case Array(_, _, items) => TwinValues(items, m.items, h);
    case Object(_, _, pairs) => TwinEntries(NoEntries, pairs, m.pairs, h);
  }

  lemma {:induction false} TwinValues(x: Items, y: Items, h: nat)
    requires TwinItems(x, y, h)
    ensures ValuesOf(x) == ValuesOf(y)
    decreases x
  {
    if x.Items? {
      TwinValue(x.head, y.head, h);
      TwinValues(x.tail, y.tail, h);
    }
  }

  lemma {:induction false} TwinEntries(soFar: Entries, x: Pairs, y: Pairs, h: nat)
    requires TwinPairs(x, y, h)
    ensures EntriesOf(soFar, x) == EntriesOf(soFar, y)
    decreases x
  {
    if x.Pairs? {
      TwinValue(x.child, y.child, h);
      TwinEntries(DictSet(soFar, x.key, ValueOf(x.child)), x.tail, y.tail, h);
    }
  }

  /** Splicing one token is revaluing its leaf; nothing at or before it moves. */
  lemma {:induction false} TwinStep(n: Node, m: Node, h: nat, e: Edit, g: nat)
    requires Proper(e) && e.node.Leaf? && Twin(n, m, h) && g <= e.a <= h
    ensures Twin(Move(n, e), SetLeaves(m, map[e.a := e.node.value]), g)
    decreases n
  {
    match n
    case Leaf(_, _, _) =>
    case Array(_, _, items) => TwinStepItems(items, m.items, h, e, g);
    case Object(_, _, pairs) => TwinStepPairs(pairs, m.pairs, h, e, g);
  }

  lemma {:induction false} TwinStepItems(x: Items, y: Items, h: nat, e: Edit, g: nat)
    requires Proper(e) && e.node.Leaf? && TwinItems(x, y, h) && g <= e.a <= h
    ensures TwinItems(MoveItems(x, e), SetItems(y, map[e.a := e.node.value]), g)
    decreases x
  {
    if x.Items? {
      TwinStep(x.head, y.head, h, e, g);
      TwinStepItems(x.tail, y.tail, h, e, g);
    }
  }

  lemma {:induction false} TwinStepPairs(x: Pairs, y: Pairs, h: nat, e: Edit, g: nat)
    requires Proper(e) && e.node.Leaf? && TwinPairs(x, y, h) && g <= e.a <= h
    ensures TwinPairs(MovePairs(x, e), SetPairs(y, map[e.a := e.node.value]), g)
    decreases x
  {
    if x.Pairs? {
      TwinStep(x.child, y.child, h, e, g);
      TwinStepPairs(x.tail, y.tail, h, e, g);
    }
  }

  lemma {:induction false} EarlierLeafStays(n: Node, a: nat, b: nat, e: Edit)
    requires Proper(e) && e.node.Leaf? && HasLeaf(n, a, b) && a < b <= e.a
    ensures HasLeaf(Move(n, e), a, b)
    decreases n
  {
    match n
    case Leaf(_, _, _) =>
    case Array(_, _, items) => EarlierItemStays(items, a, b, e);
    case Object(_, _, pairs) => EarlierPairStays(pairs, a, b, e);
  }

  lemma {:induction false} EarlierItemStays(items: Items, a: nat, b: nat, e: Edit)
    requires Proper(e) && e.node.Leaf? && ItemsHaveLeaf(items, a, b) && a < b <= e.a
    ensures ItemsHaveLeaf(MoveItems(items, e), a, b)
    decreases items
  {
    if HasLeaf(items.head, a, b) {
      EarlierLeafStays(items.head, a, b, e);
    } else {
      EarlierItemStays(items.tail, a, b, e);
    }
  }

  lemma {:induction false} EarlierPairStays(pairs: Pairs, a: nat, b: nat, e: Edit)
    requires Proper(e) && e.node.Leaf? && PairsHaveLeaf(pairs, a, b) && a < b <= e.a
    ensures PairsHaveLeaf(MovePairs(pairs, e), a, b)
    decreases pairs
  {
    if HasLeaf(pairs.child, a, b) {
      EarlierLeafStays(pairs.child, a, b, e);
    } else {
      EarlierPairStays(pairs.tail, a, b, e);
    }
  }

  /** The tree after splicing all the spans. */
  function MoveAll(root: Node, spans: seq<Span>, d: Dialect): Node
    requires forall k :: 0 <= k < |spans| ==> TokenValue(spans[k].text, d).Some? && spans[k].start < spans[k].end
    decreases |spans|
  {
    if spans == [] then root else Move(MoveAll(root, spans[1..], d), EditOf(spans[0], d))
  }

  lemma {:induction false} PlacedOrder(raw: Text, spans: seq<Span>, from: nat, k: nat)
    requires Placed(raw, spans, from) && k < |spans|
    ensures from <= spans[k].start < spans[k].end <= |raw|
    decreases |spans|
  {
    if k > 0 {
      PlacedOrder(raw, spans[1..], spans[0].end, k - 1);
    }
  }

  lemma AllPlaced(raw: Text, spans: seq<Span>, from: nat)
    requires Placed(raw, spans, from)
    ensures forall k :: 0 <= k < |spans| ==> from <= spans[k].start < spans[k].end <= |raw|
  {
    forall k | 0 <= k < |spans| ensures from <= spans[k].start < spans[k].end <= |raw| {
      PlacedOrder(raw, spans, from, k);
    }
  }

  lemma {:induction false} LeafSurvives(raw: Text, root: Node, spans: seq<Span>, from: nat, a: nat, b: nat, d: Dialect)
    requires Placed(raw, spans, from) && Tokens(root, spans, d) && HasLeaf(root, a, b) && a < b <= from
    requires forall k :: 0 <= k < |spans| ==> spans[k].start < spans[k].end
    ensures HasLeaf(MoveAll(root, spans, d), a, b)
    decreases |spans|
  {
    hide TokenValue, HasLeaf, Move;
    if spans != [] {
      LeafSurvives(raw, root, spans[1..], spans[0].end, a, b, d);
      TokenNotEmpty(spans[0].text, d);
      EarlierLeafStays(MoveAll(root, spans[1..], d), a, b, EditOf(spans[0], d));
    }
  }

  lemma TokenNotEmpty(t: Text, d: Dialect)
    requires TokenValue(t, d).Some?
    ensures t != []
  {
  }

  /** The spliced text derives the moved tree. */
  lemma {:induction false} SplicedDerives(raw: Text, root: Node, spans: seq<Span>, from: nat, d: Dialect)
    requires DerivesDocument(raw, root, d) && Placed(raw, spans, from) && Tokens(root, spans, d)
    requires forall k :: 0 <= k < |spans| ==> spans[k].start < spans[k].end
    ensures DerivesDocument(SpliceDown(raw, spans, from), MoveAll(root, spans, d), d)
    decreases |spans|
  {
    hide TokenValue, HasLeaf, Move, Derives, WsEnd;
    if spans != [] {
      var x, rest := spans[0], spans[1..];
      SplicedDerives(raw, root, rest, x.end, d);
      assert HasLeaf(root, x.start, x.end);
      LeafSurvives(raw, root, rest, x.end, x.start, x.end, d);
      var later, moved, e := SpliceDown(raw, rest, x.end), MoveAll(root, rest, d), EditOf(x, d);
      TokenNotEmpty(x.text, d);
      LeafMoved(later, moved, e, x.text, d);
    }
  }

  lemma {:induction false} LeafInside(s: Text, n: Node, a: nat, b: nat, d: Dialect)
    requires Derives(s, n, d) && HasLeaf(n, a, b)
    ensures n.start <= a < b <= n.end && TokenValue(s[a..b], d).Some?
    decreases n
  {
    hide TokenValue;
    match n
    case Leaf(_, _, _) =>
    case Array(start, end, items) => LeafInsideItems(s, items, start + 1, end - 1, a, b, d);
    case Object(start, end, pairs) => LeafInsidePairs(s, pairs, start + 1, end - 1, a, b, d);
  }

  lemma {:induction false} LeafInsideItems(s: Text, items: Items, i: nat, j: nat, a: nat, b: nat, d: Dialect)
    requires i <= j <= |s| && DerivesItems(s, items, i, j, d) && ItemsHaveLeaf(items, a, b)
    ensures i <= a < b <= j && TokenValue(s[a..b], d).Some?
    decreases items
  {
    hide TokenValue, WsEnd, Derives, HasLeaf;
    if HasLeaf(items.head, a, b) {
      LeafInside(s, items.head, a, b, d);
    } else {
      LeafInsideItems(s, items.tail, WsEnd(s, items.head.end) + 1, j, a, b, d);
    }
    ValueStart(s, items.head, d);
  }

  lemma {:induction false} LeafInsidePairs(s: Text, pairs: Pairs, i: nat, j: nat, a: nat, b: nat, d: Dialect)
    requires i <= j <= |s| && DerivesPairs(s, pairs, i, j, d) && PairsHaveLeaf(pairs, a, b)
    ensures i <= a < b <= j && TokenValue(s[a..b], d).Some?
    decreases pairs
  {
    hide TokenValue, WsEnd, Derives, HasLeaf, StringToken;
    if HasLeaf(pairs.child, a, b) {
      LeafInside(s, pairs.child, a, b, d);
    } else {
      LeafInsidePairs(s, pairs.tail, WsEnd(s, pairs.child.end) + 1, j, a, b, d);
    }
    ValueStart(s, pairs.child, d);
  }

  lemma LeafToken(s: Text, root: Node, a: nat, b: nat, d: Dialect)
    requires DerivesDocument(s, root, d) && HasLeaf(root, a, b)
    ensures root.start <= a < b <= root.end <= |s| && TokenValue(s[a..b], d).Some?
  {
    hide TokenValue, HasLeaf, WsEnd, Derives;
    LeafInside(s, root, a, b, d);
  }

  lemma {:induction false} SplicedTwin(raw: Text, root: Node, spans: seq<Span>, from: nat, h: nat, d: Dialect)
    requires Placed(raw, spans, from) && Tokens(root, spans, d)
    requires forall k :: 0 <= k < |spans| ==> h <= spans[k].start < spans[k].end
    ensures Twin(MoveAll(root, spans, d), SetLeaves(root, NewValues(spans, d)), h)
    decreases |spans|
  {
    hide TokenValue, HasLeaf, Move, Twin, SetLeaves;
    if spans == [] {
      TwinSelf(root, h);
      SetNothing(root);
    } else {
      var x, rest := spans[0], spans[1..];
      AllPlaced(raw, rest, x.end);
      SplicedTwin(raw, root, rest, x.end, x.start, d);
      TokenNotEmpty(x.text, d);
      TwinStep(MoveAll(root, rest, d), SetLeaves(root, NewValues(rest, d)), x.start, EditOf(x, d), h);
      var v := TokenValue(x.text, d).value;
      SetTwice(root, NewValues(rest, d), map[x.start := v]);
      assert NewValues(rest, d) + map[x.start := v] == NewValues(rest, d)[x.start := v];
    }
  }

  lemma SetNothing(n: Node)
    ensures SetLeaves(n, map[]) == n
    decreases n
  {
    match n
    case Leaf(_, _, _) =>
    case Array(_, _, items) => SetNoItems(items);
    case Object(_, _, pairs) => SetNoPairs(pairs);
  }

  lemma SetNoItems(items: Items)
    ensures SetItems(items, map[]) == items
    decreases items
  {
    if items.Items? {
      SetNothing(items.head);
      SetNoItems(items.tail);
    }
  }

  lemma SetNoPairs(pairs: Pairs)
    ensures SetPairs(pairs, map[]) == pairs
    decreases pairs
  {
    if pairs.Pairs? {
      SetNothing(pairs.child);
      SetNoPairs(pairs.tail);
    }
  }

  /** The spliced text parses, and decodes to the original tree with the new tokens' values. */
  lemma SplicedLoads(raw: Text, root: Node, spans: seq<Span>)
    requires DerivesDocument(raw, root, Lenient) && Placed(raw, spans, 0) && Tokens(root, spans, Lenient)
    ensures Loads(SpliceDown(raw, spans, 0)) == Ok(ValueOf(SetLeaves(root, NewValues(spans, Lenient))))
  {
    hide TokenValue, Derives, HasLeaf, Placed, SpliceDown;
    AllPlaced(raw, spans, 0);
    SplicedDerives(raw, root, spans, 0, Lenient);
    SplicedTwin(raw, root, spans, 0, 0, Lenient);
    TwinValue(MoveAll(root, spans, Lenient), SetLeaves(root, NewValues(spans, Lenient)), 0);
    ParserIsExact(SpliceDown(raw, spans, 0), MoveAll(root, spans, Lenient), Lenient);
  }
}
