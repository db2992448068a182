/** Why the re-parse gate of `splice_scalars` never stops a faithful edit, and what else it stops. */
module JsonSpliceGate {
  // The spans of distinct leaves never overlap, the spliced text always parses, and its value is the parsed
  // value with the edits set.

  import opened Text
  import opened JsonGrammar
  import opened JsonParser
  import opened JsonPaths
  import opened JsonValues
  import opened JsonLocality
  import opened JsonSplice

  // ---- The strict grammar inside the lenient one ------------------------------------------------------

  lemma StrictToken(t: Text)
    requires TokenValue(t, Strict).Some?
    ensures TokenValue(t, Lenient) == TokenValue(t, Strict)
  {
    if t[0] != QUOTE && !IsConstant(t, Strict) {
      NumberIsNoConstant(t);
    }
  }

  lemma {:induction false} StrictDerives(s: Text, n: Node)
    requires Derives(s, n, Strict)
    ensures Derives(s, n, Lenient)
    decreases n
  {
    hide TokenValue, WsEnd;
    match n
    case Leaf(start, end, _) => StrictToken(s[start..end]);
    case Array(start, end, items) => StrictItems(s, items, start + 1, end - 1);
    case Object(start, end, pairs) => StrictPairs(s, pairs, start + 1, end - 1);
  }

  lemma {:induction false} StrictItems(s: Text, items: Items, i: nat, j: nat)
    requires i <= j <= |s| && DerivesItems(s, items, i, j, Strict)
    ensures DerivesItems(s, items, i, j, Lenient)
    decreases items
  {
    hide TokenValue, WsEnd;
    if items.Items? {
      StrictDerives(s, items.head);
      if items.tail.Items? {
        StrictItems(s, items.tail, WsEnd(s, items.head.end) + 1, j);
      }
    }
  }

  lemma {:induction false} StrictPairs(s: Text, pairs: Pairs, i: nat, j: nat)
    requires i <= j <= |s| && DerivesPairs(s, pairs, i, j, Strict)
    ensures DerivesPairs(s, pairs, i, j, Lenient)
    decreases pairs
  {
    hide TokenValue, WsEnd, StringToken;
    if pairs.Pairs? {
      StrictDerives(s, pairs.child);
      if pairs.tail.Pairs? {
        StrictPairs(s, pairs.tail, WsEnd(s, pairs.child.end) + 1, j);
      }
    }
  }

  // ---- Values without NaN ----------------------------------------------------------------------------

  predicate PlainTree(n: Node) {
    match n
    case Leaf(_, _, value) => Plain(value) && !value.List? && !value.Dict?
    case Array(_, _, items) => PlainItems(items)
    case Object(_, _, pairs) => PlainPairs(pairs)
  }

  predicate PlainItems(items: Items) {
    match items case NoItems => true case Items(head, tail) => PlainTree(head) && PlainItems(tail)
  }

  predicate PlainPairs(pairs: Pairs) {
    match pairs case NoPairs => true case Pairs(_, _, _, child, tail) => PlainTree(child) && PlainPairs(tail)
  }

  lemma StrictTokenPlain(t: Text)
    requires TokenValue(t, Strict).Some?
    ensures var v := TokenValue(t, Strict).value; Plain(v) && !v.List? && !v.Dict?
  {
  }

  lemma {:induction false} StrictPlain(s: Text, n: Node)
    requires Derives(s, n, Strict)
    ensures PlainTree(n)
    decreases n
  {
    hide TokenValue, WsEnd;
    match n
    case Leaf(start, end, _) => StrictTokenPlain(s[start..end]);
    case Array(start, end, items) => StrictPlainItems(s, items, start + 1, end - 1);
    case Object(start, end, pairs) => StrictPlainPairs(s, pairs, start + 1, end - 1);
  }

  lemma {:induction false} StrictPlainItems(s: Text, items: Items, i: nat, j: nat)
    requires i <= j <= |s| && DerivesItems(s, items, i, j, Strict)
    ensures PlainItems(items)
    decreases items
  {
    hide TokenValue, WsEnd;
    if items.Items? {
      StrictPlain(s, items.head);
      if items.tail.Items? {
        StrictPlainItems(s, items.tail, WsEnd(s, items.head.end) + 1, j);
      }
    }
  }

  lemma {:induction false} StrictPlainPairs(s: Text, pairs: Pairs, i: nat, j: nat)
    requires i <= j <= |s| && DerivesPairs(s, pairs, i, j, Strict)
    ensures PlainPairs(pairs)
    decreases pairs
  {
    hide TokenValue, WsEnd, StringToken;
    if pairs.Pairs? {
      StrictPlain(s, pairs.child);
      if pairs.tail.Pairs? {
        StrictPlainPairs(s, pairs.tail, WsEnd(s, pairs.child.end) + 1, j);
      }
    }
  }

  predicate PlainMap(m: map<nat, Value>) {
    forall a :: a in m ==> Plain(m[a]) && !m[a].List? && !m[a].Dict?
  }

  lemma {:induction false} SetKeepsPlain(n: Node, m: map<nat, Value>)
    requires PlainTree(n) && PlainMap(m)
    ensures PlainTree(SetLeaves(n, m))
    decreases n
  {
    match n
    case Leaf(_, _, _) =>
    case Array(_, _, items) => SetKeepsPlainItems(items, m);
    case Object(_, _, pairs) => SetKeepsPlainPairs(pairs, m);
  }

  lemma {:induction false} SetKeepsPlainItems(items: Items, m: map<nat, Value>)
    requires PlainItems(items) && PlainMap(m)
    ensures PlainItems(SetItems(items, m))
    decreases items
  {
    if items.Items? {
      SetKeepsPlain(items.head, m);
      SetKeepsPlainItems(items.tail, m);
    }
  }

  lemma {:induction false} SetKeepsPlainPairs(pairs: Pairs, m: map<nat, Value>)
    requires PlainPairs(pairs) && PlainMap(m)
    ensures PlainPairs(SetPairs(pairs, m))
    decreases pairs
  {
    if pairs.Pairs? {
      SetKeepsPlain(pairs.child, m);
      SetKeepsPlainPairs(pairs.tail, m);
    }
  }

  lemma {:induction false} PlainTreeValue(n: Node)
    requires PlainTree(n)
    ensures Plain(ValueOf(n))
    decreases n
  {
    match n
    case Leaf(_, _, _) =>
    case Array(_, _, items) => PlainItemValues(items);
    case Object(_, _, pairs) => PlainPairValues(NoEntries, pairs);
  }

  lemma {:induction false} PlainItemValues(items: Items)
    requires PlainItems(items)
    ensures PlainList(ValuesOf(items))
    decreases items
  {
    if items.Items? {
      PlainTreeValue(items.head);
      PlainItemValues(items.tail);
    }
  }

  lemma {:induction false} PlainPairValues(soFar: Entries, pairs: Pairs)
    requires PlainEntries(soFar) && PlainPairs(pairs)
    ensures PlainEntries(EntriesOf(soFar, pairs))
    decreases pairs
  {
    if pairs.Pairs? {
      PlainTreeValue(pairs.child);
      DictSetPlain(soFar, pairs.key, ValueOf(pairs.child));
      PlainPairValues(DictSet(soFar, pairs.key, ValueOf(pairs.child)), pairs.tail);
    }
  }

  // ---- Distinct leaves do not overlap -------------------------------------------------------------------

  lemma {:induction false} LeafWithin(n: Node, a: nat, b: nat)
    requires Ordered(n) && HasLeaf(n, a, b)
    ensures n.start <= a < b <= n.end
    decreases n
  {
    match n
    case Leaf(_, _, _) =>
    case Array(start, end, items) => LeafWithinItems(items, start, end, a, b);
    case Object(start, end, pairs) => LeafWithinPairs(pairs, start, end, a, b);
  }

  lemma {:induction false} LeafWithinItems(items: Items, i: nat, j: nat, a: nat, b: nat)
    requires OrderedItems(items, i, j) && ItemsHaveLeaf(items, a, b)
    ensures i <= a < b <= j
    decreases items
  {
    if HasLeaf(items.head, a, b) {
      LeafWithin(items.head, a, b);
    } else {
      LeafWithinItems(items.tail, items.head.end, j, a, b);
    }
  }

  lemma {:induction false} LeafWithinPairs(pairs: Pairs, i: nat, j: nat, a: nat, b: nat)
    requires OrderedPairs(pairs, i, j) && PairsHaveLeaf(pairs, a, b)
    ensures i <= a < b <= j
    decreases pairs
  {
    if HasLeaf(pairs.child, a, b) {
      LeafWithin(pairs.child, a, b);
    } else {
      LeafWithinPairs(pairs.tail, pairs.child.end, j, a, b);
    }
  }

  predicate Apart(a: nat, b: nat, c: nat, d: nat) {
    b <= c || d <= a
  }

  lemma {:induction false} LeavesApart(n: Node, a: nat, b: nat, c: nat, d: nat)
    requires Ordered(n) && HasLeaf(n, a, b) && HasLeaf(n, c, d) && a != c
    ensures Apart(a, b, c, d)
    decreases n
  {
    match n
    case Leaf(_, _, _) =>
    case Array(start, end, items) => ItemLeavesApart(items, start, end, a, b, c, d);
    case Object(start, end, pairs) => PairLeavesApart(pairs, start, end, a, b, c, d);
  }

  lemma {:induction false} ItemLeavesApart(items: Items, i: nat, j: nat, a: nat, b: nat, c: nat, d: nat)
    requires OrderedItems(items, i, j) && ItemsHaveLeaf(items, a, b) && ItemsHaveLeaf(items, c, d) && a != c
    ensures Apart(a, b, c, d)
    decreases items
  {
    if HasLeaf(items.head, a, b) && HasLeaf(items.head, c, d) {
      LeavesApart(items.head, a, b, c, d);
    } else if HasLeaf(items.head, a, b) {
      LeafWithin(items.head, a, b);
      LeafWithinItems(items.tail, items.head.end, j, c, d);
    } else if HasLeaf(items.head, c, d) {
      LeafWithin(items.head, c, d);
      LeafWithinItems(items.tail, items.head.end, j, a, b);
    } else {
      ItemLeavesApart(items.tail, items.head.end, j, a, b, c, d);
    }
  }

  lemma {:induction false} PairLeavesApart(pairs: Pairs, i: nat, j: nat, a: nat, b: nat, c: nat, d: nat)
    requires OrderedPairs(pairs, i, j) && PairsHaveLeaf(pairs, a, b) && PairsHaveLeaf(pairs, c, d) && a != c
    ensures Apart(a, b, c, d)
    decreases pairs
  {
    if HasLeaf(pairs.child, a, b) && HasLeaf(pairs.child, c, d) {
      LeavesApart(pairs.child, a, b, c, d);
    } else if HasLeaf(pairs.child, a, b) {
      LeafWithin(pairs.child, a, b);
      LeafWithinPairs(pairs.tail, pairs.child.end, j, c, d);
    } else if HasLeaf(pairs.child, c, d) {
      LeafWithin(pairs.child, c, d);
      LeafWithinPairs(pairs.tail, pairs.child.end, j, a, b);
    } else {
      PairLeavesApart(pairs.tail, pairs.child.end, j, a, b, c, d);
    }
  }

  lemma {:induction false} NthHasLeaf(items: Items, k: nat, a: nat, b: nat)
    requires k < Count(items) && HasLeaf(Nth(items, k), a, b)
    ensures ItemsHaveLeaf(items, a, b)
    decreases items
  {
    if k > 0 {
      NthHasLeaf(items.tail, k - 1, a, b);
    }
  }

  lemma {:induction false} LookupHasLeaf(pairs: Pairs, key: Text, a: nat, b: nat)
    requires Lookup(pairs, key).Some? && HasLeaf(Lookup(pairs, key).value, a, b)
    ensures PairsHaveLeaf(pairs, a, b)
    decreases pairs
  {
    if Lookup(pairs.tail, key).Some? {
      LookupHasLeaf(pairs.tail, key, a, b);
    }
  }

  lemma {:induction false} NavigatedHasLeaf(n: Node, path: seq<Step>)
    requires Navigate(n, path).Ok? && Navigate(n, path).value.Leaf?
    ensures var leaf := Navigate(n, path).value; HasLeaf(n, leaf.start, leaf.end)
    decreases |path|
  {
    if path != [] {
      var leaf := Navigate(n, path).value;
      NavigatedHasLeaf(Child(n, path[0]).value, path[1..]);
      if n.Array? {
        NthHasLeaf(n.items, path[0].index.value, leaf.start, leaf.end);
      } else {
        LookupHasLeaf(n.pairs, path[0].key, leaf.start, leaf.end);
      }
    }
  }

  // ---- Sorting the plan --------------------------------------------------------------------------------

  lemma {:induction false} InsertMembers(x: Span, spans: seq<Span>)
    ensures forall y :: y in Insert(x, spans) <==> y == x || y in spans
    decreases |spans|
  {
    if spans != [] && x.start >= spans[0].start {
      InsertMembers(x, spans[1..]);
      assert spans == [spans[0]] + spans[1..];
    }
  }

  lemma {:induction false} SortedMembers(spans: seq<Span>)
    ensures forall y :: y in Sorted(spans) <==> y in spans
    decreases |spans|
  {
    if spans != [] {
      var last := |spans| - 1;
      SortedMembers(spans[..last]);
      InsertMembers(spans[last], Sorted(spans[..last]));
      assert spans == spans[..last] + [spans[last]];
    }
  }

  lemma {:induction false} InsertPlaced(raw: Text, x: Span, spans: seq<Span>, from: nat)
    requires Placed(raw, spans, from) && from <= x.start < x.end <= |raw|
    requires forall y :: y in spans ==> Apart(x.start, x.end, y.start, y.end)
    ensures Placed(raw, Insert(x, spans), from)
    decreases |spans|
  {
    if spans != [] {
      assert spans[0] in spans;
      if x.start < spans[0].start {
        assert ([x] + spans)[1..] == spans;
      } else {
        InsertPlaced(raw, x, spans[1..], spans[0].end);
        assert Insert(x, spans)[1..] == Insert(x, spans[1..]);
      }
    }
  }

  lemma {:induction false} InsertValues(x: Span, spans: seq<Span>, d: Dialect)
    requires TokenValue(x.text, d).Some?
    requires forall y :: y in spans ==> y.start != x.start
    ensures NewValues(Insert(x, spans), d) == NewValues(spans, d)[x.start := TokenValue(x.text, d).value]
    decreases |spans|
  {
    hide TokenValue;
    if spans == [] || x.start < spans[0].start {
      assert ([x] + spans)[1..] == spans;
    } else {
      assert spans[0] in spans;
      InsertValues(x, spans[1..], d);
      assert Insert(x, spans)[1..] == Insert(x, spans[1..]);
    }
  }

  // ---- The plan --------------------------------------------------------------------------------------------

  /** The edits name scalar leaves, pairwise distinct, and carry scalars. */
  predicate Addressed(root: Node, edits: seq<PathEdit>) {
    && (forall k :: 0 <= k < |edits| ==> Targeted(root, edits[k]))
    && (forall i, j :: 0 <= i < j < |edits| ==>
          Navigate(root, edits[i].path).value.start != Navigate(root, edits[j].path).value.start)
  }

  predicate Targeted(root: Node, e: PathEdit) {
    e.path != [] && IsScalar(e.value) && Navigate(root, e.path).Ok? && Navigate(root, e.path).value.Leaf?
  }

  function Target(root: Node, e: PathEdit): Node
    requires Targeted(root, e)
  {
    Navigate(root, e.path).value
  }

  /** The edit really changes its leaf. */
  predicate Changes(root: Node, e: PathEdit)
    requires Targeted(root, e)
  {
    Target(root, e).value != PyValue(e.value)
  }

  predicate AllFaithful(root: Node, edits: seq<PathEdit>, ascii: bool)
    requires forall k :: 0 <= k < |edits| ==> Targeted(root, edits[k])
  {
    forall k :: 0 <= k < |edits| && Changes(root, edits[k]) ==> Faithful(edits[k].value, ascii)
  }

  /** What the changing edits assign, by the start offset of their leaf. */
  function Assigned(root: Node, edits: seq<PathEdit>): map<nat, Value>
    requires forall k :: 0 <= k < |edits| ==> Targeted(root, edits[k])
  {
    if edits == [] then map[]
    else
      var last := edits[|edits| - 1];
      var m := Assigned(root, edits[..|edits| - 1]);
      if Changes(root, last) then m[Target(root, last).start := PyValue(last.value)] else m
  }

  /** What the reloaded text holds there instead. */
  function Reloads(root: Node, edits: seq<PathEdit>, ascii: bool): map<nat, Value>
    requires forall k :: 0 <= k < |edits| ==> Targeted(root, edits[k])
  {
    if edits == [] then map[]
    else
      var last := edits[|edits| - 1];
      var m := Reloads(root, edits[..|edits| - 1], ascii);
      if Changes(root, last) then m[Target(root, last).start := Reloaded(last.value, ascii)] else m
  }

  predicate Started(root: Node, edits: seq<PathEdit>, a: nat)
    requires forall k :: 0 <= k < |edits| ==> Targeted(root, edits[k])
  {
    exists k :: 0 <= k < |edits| && Target(root, edits[k]).start == a
  }

  /** One more span, on a leaf that has none yet. */
  lemma PlanGrows(raw: Text, root: Node, spans: seq<Span>, x: Span)
    requires Ordered(root) && Placed(raw, Sorted(spans), 0) && x.start < x.end <= |raw|
    requires HasLeaf(root, x.start, x.end) && TokenValue(x.text, Lenient).Some?
    requires forall y :: y in Sorted(spans) ==> HasLeaf(root, y.start, y.end) && y.start != x.start
    ensures Placed(raw, Sorted(spans + [x]), 0)
    ensures forall y :: y in Sorted(spans + [x]) <==> y == x || y in Sorted(spans)
    ensures NewValues(Sorted(spans + [x]), Lenient) ==
            NewValues(Sorted(spans), Lenient)[x.start := TokenValue(x.text, Lenient).value]
  {
    hide TokenValue, HasLeaf, Ordered, Placed, NewValues, Insert;
    assert (spans + [x])[..|spans|] == spans;
    forall y | y in Sorted(spans) ensures Apart(x.start, x.end, y.start, y.end) {
      LeavesApart(root, x.start, x.end, y.start, y.end);
    }
    InsertMembers(x, Sorted(spans));
    InsertPlaced(raw, x, Sorted(spans), 0);
    InsertValues(x, Sorted(spans), Lenient);
  }

  /** The plan of addressed edits exists, is made of leaf tokens, and lies without overlap. */
  lemma {:induction false} PlanFacts(raw: Text, root: Node, edits: seq<PathEdit>, ascii: bool)
    requires DerivesDocument(raw, root, Lenient) && Addressed(root, edits)
    ensures Plan(root, edits, ascii).Ok?
    ensures var spans := Plan(root, edits, ascii).value;
            && Placed(raw, Sorted(spans), 0)
            && (forall x :: x in Sorted(spans) ==>
                  && HasLeaf(root, x.start, x.end) && TokenValue(x.text, Lenient).Some?
                  && Started(root, edits, x.start))
            && NewValues(Sorted(spans), Lenient) == Reloads(root, edits, ascii)
    decreases |edits|
  {
    hide TokenValue, HasLeaf, Derives, Navigate, Dump, WsEnd, Sorted, Placed, NewValues, Reloaded, PyValue, IsScalar,
      Ordered;
    if edits == [] {
      NothingPlanned(raw);
    } else {
      var before, last := edits[..|edits| - 1], edits[|edits| - 1];
      PlanFacts(raw, root, before, ascii);
      var spans := Plan(root, before, ascii).value;
      forall a | Started(root, before, a) ensures Started(root, edits, a) {
        var k :| 0 <= k < |before| && Target(root, before[k]).start == a;
        assert edits[k] == before[k];
      }
      if Changes(root, last) {
        var n := Target(root, last);
        var x := Span(n.start, n.end, Dump(last.value, ascii));
        DumpReloads(last.value, ascii);
        NavigatedHasLeaf(root, last.path);
        LeafToken(raw, root, x.start, x.end, Lenient);
        DerivedIsOrdered(raw, root, Lenient);
        assert Plan(root, edits, ascii) == Ok(spans + [x]);
        PlanGrows(raw, root, spans, x);
        assert Target(root, edits[|edits| - 1]).start == x.start;
      } else {
        assert Plan(root, edits, ascii) == Ok(spans + []);
        assert spans + [] == spans;
      }
    }
  }

  lemma NothingPlanned(raw: Text)
    ensures Sorted([]) == [] && Placed(raw, [], 0) && NewValues([], Lenient) == map[]
  {
  }

  // ---- The expected value ------------------------------------------------------------------------------------

  /** `for path, value in edits: _set_at_path(expected, path, value)`; `None` where Python raises. */
  function SetAll(v: Value, edits: seq<PathEdit>): Option<Value>
    requires forall k :: 0 <= k < |edits| ==> edits[k].path != [] && IsScalar(edits[k].value)
  {
    if edits == [] then Some(v)
    else
      match SetAll(v, edits[..|edits| - 1])
      case None => None
      case Some(w) => SetAt(w, edits[|edits| - 1].path, PyValue(edits[|edits| - 1].value))
  }

  lemma {:induction false} DictSetSame(entries: Entries, key: Text)
    requires DictGet(entries, key).Some?
    ensures DictSet(entries, key, DictGet(entries, key).value) == entries
    decreases entries
  {
    if entries.key != key {
      DictSetSame(entries.tail, key);
    }
  }

  lemma {:induction false} SetNthSame(values: Values, k: nat)
    requires k < Length(values)
    ensures SetNth(values, k, NthValue(values, k)) == values
    decreases values
  {
    if k > 0 {
      SetNthSame(values.tail, k - 1);
    }
  }

  lemma PutSame(v: Value, step: Step)
    requires Get(v, step).Some?
    ensures Put(v, step, Get(v, step).value) == Some(v)
  {
    match v
    case List(elems) => SetNthSame(elems, ListIndex(step.index, Length(elems)).value);
    case Dict(entries) => DictSetSame(entries, step.key);
  }

  lemma {:induction false} SetAtSame(v: Value, path: seq<Step>)
    requires path != [] && GetAt(v, path).Some?
    ensures SetAt(v, path, GetAt(v, path).value) == Some(v)
    decreases |path|
  {
    hide Get, Put;
    PutSame(v, path[0]);
    if |path| > 1 {
      SetAtSame(Get(v, path[0]).value, path[1..]);
    } else {
      assert GetAt(Get(v, path[0]).value, path[1..]) == Some(Get(v, path[0]).value);
    }
  }

  lemma {:induction false} AssignedStarts(root: Node, edits: seq<PathEdit>, ascii: bool, a: nat)
    requires forall k :: 0 <= k < |edits| ==> Targeted(root, edits[k])
    ensures a in Assigned(root, edits) || a in Reloads(root, edits, ascii) ==> Started(root, edits, a)
    decreases |edits|
  {
    hide Navigate;
    if edits != [] {
      var before, last := edits[..|edits| - 1], edits[|edits| - 1];
      AssignedStarts(root, before, ascii, a);
      if Started(root, before, a) {
        var k :| 0 <= k < |before| && Target(root, before[k]).start == a;
        assert edits[k] == before[k];
      } else {
        assert Target(root, edits[|edits| - 1]) == Target(root, last);
      }
    }
  }

  /** What a path reads in a revalued tree. */
  lemma ReadRevalued(root: Node, e: PathEdit, m: map<nat, Value>)
    requires Targeted(root, e)
    ensures GetAt(ValueOf(SetLeaves(root, m)), e.path) ==
            Some(if Target(root, e).start in m then m[Target(root, e).start] else Target(root, e).value)
  {
    hide Navigate, GetAt;
    NavigateSet(root, e.path, m);
    NavigatedValue(SetLeaves(root, m), e.path);
  }

  lemma {:induction false} SetAllIsAssigned(root: Node, edits: seq<PathEdit>)
    requires Ordered(root) && Addressed(root, edits)
    ensures SetAll(ValueOf(root), edits) == Some(ValueOf(SetLeaves(root, Assigned(root, edits))))
    decreases |edits|
  {
    hide Navigate, SetAt, GetAt, SetLeaves, ValueOf;
    if edits == [] {
      SetNothing(root);
    } else {
      var before, last := edits[..|edits| - 1], edits[|edits| - 1];
      SetAllIsAssigned(root, before);
      var m := Assigned(root, before);
      var a, v := Target(root, last).start, PyValue(last.value);
      var tree := SetLeaves(root, m);
      if Changes(root, last) {
        SetKeepsOrder(root, m);
        NavigateSet(root, last.path, m);
        SetLeafSpan(Target(root, last), m);
        SetAtIsSetLeaf(tree, last.path, v);
        SetTwice(root, m, map[a := v]);
        assert m + map[a := v] == m[a := v];
      } else {
        AssignedStarts(root, before, false, a);
        ReadRevalued(root, last, m);
        SetAtSame(ValueOf(tree), last.path);
      }
    }
  }

  lemma SetLeafSpan(n: Node, m: map<nat, Value>)
    requires n.Leaf?
    ensures SetLeaves(n, m).Leaf? && SetLeaves(n, m).start == n.start
  {
  }

  // ---- The gate ------------------------------------------------------------------------------------------------

  lemma {:induction false} MapsAt(root: Node, edits: seq<PathEdit>, ascii: bool, k: nat)
    requires Addressed(root, edits) && k < |edits| && Changes(root, edits[k])
    ensures var a := Target(root, edits[k]).start;
            && a in Assigned(root, edits) && Assigned(root, edits)[a] == PyValue(edits[k].value)
            && a in Reloads(root, edits, ascii) && Reloads(root, edits, ascii)[a] == Reloaded(edits[k].value, ascii)
    decreases |edits|
  {
    hide Navigate, Reloaded, PyValue;
    var before := edits[..|edits| - 1];
    if k < |before| {
      assert before[k] == edits[k];
      MapsAt(root, before, ascii, k);
    }
  }

  lemma {:induction false} FaithfulMaps(root: Node, edits: seq<PathEdit>, ascii: bool)
    requires (forall k :: 0 <= k < |edits| ==> Targeted(root, edits[k])) && AllFaithful(root, edits, ascii)
    ensures Assigned(root, edits) == Reloads(root, edits, ascii) && PlainMap(Assigned(root, edits))
    decreases |edits|
  {
    hide Navigate, Reloaded, PyValue, Faithful, Plain, IsScalar;
    if edits != [] {
      var before, last := edits[..|edits| - 1], edits[|edits| - 1];
      assert forall k :: 0 <= k < |before| ==> before[k] == edits[k];
      ScalarValue(last.value);
      FaithfulMaps(root, before, ascii);
      ReloadedEqual(last.value, ascii);
    }
  }

  lemma ScalarValue(p: Py)
    requires IsScalar(p)
    ensures !PyValue(p).List? && !PyValue(p).Dict?
  {
  }

  /** The spliced text of a plan. */
  function Spliced(raw: Text, spans: seq<Span>): Text
    requires Placed(raw, Sorted(spans), 0)
  {
    SpliceDown(raw, Sorted(spans), 0)
  }

  /**
   The gate, exactly.  The spliced text always parses; it compares equal to the expected value if and
   only if every changing value survives `json.dumps`; and then it is that value, types included.
   */
  lemma GateIsExact(raw: Text, root: Node, edits: seq<PathEdit>, ascii: bool)
    requires DerivesDocument(raw, root, Strict) && Addressed(root, edits)
    ensures Plan(root, edits, ascii).Ok? && Placed(raw, Sorted(Plan(root, edits, ascii).value), 0)
    ensures Loads(raw) == Ok(ValueOf(root))
    ensures SetAll(ValueOf(root), edits).Some?
    ensures Loads(Spliced(raw, Plan(root, edits, ascii).value)).Ok?
    ensures var got := Loads(Spliced(raw, Plan(root, edits, ascii).value)).value;
            var expected := SetAll(ValueOf(root), edits).value;
            && (PyEqual(got, expected) <==> AllFaithful(root, edits, ascii))
            && (AllFaithful(root, edits, ascii) ==> got == expected)
  {
    hide TokenValue, HasLeaf, Derives, Navigate, Plan, Placed, PyEqual, Faithful, SetLeaves, ValueOf, GetAt, WsEnd,
      Reloaded, PyValue, SetAll, Sorted, SpliceDown, NewValues, Plain, PlainTree;
    StrictDerives(raw, root);
    ParserIsExact(raw, root, Lenient);
    PlanFacts(raw, root, edits, ascii);
    var spans := Sorted(Plan(root, edits, ascii).value);
    assert Tokens(root, spans, Lenient);
    SplicedLoads(raw, root, spans);
    DerivedIsOrdered(raw, root, Lenient);
    SetAllIsAssigned(root, edits);
    var got := ValueOf(SetLeaves(root, Reloads(root, edits, ascii)));
    var expected := ValueOf(SetLeaves(root, Assigned(root, edits)));
    if AllFaithful(root, edits, ascii) {
      FaithfulMaps(root, edits, ascii);
      StrictPlain(raw, root);
      SetKeepsPlain(root, Assigned(root, edits));
      PlainTreeValue(SetLeaves(root, Assigned(root, edits)));
      PlainEqualsItself(expected);
    } else {
      var k :| 0 <= k < |edits| && Changes(root, edits[k]) && !Faithful(edits[k].value, ascii);
      MapsAt(root, edits, ascii, k);
      ReadRevalued(root, edits[k], Reloads(root, edits, ascii));
      ReadRevalued(root, edits[k], Assigned(root, edits));
      ReloadedEqual(edits[k].value, ascii);
      if PyEqual(got, expected) {
        EqualValuesAgree(got, expected, edits[k].path);
      }
    }
  }
}
