/**
 Addressing a value by a dotted path: navigation in the parsed tree, where the last member with a key wins
 and indices are not negative; assignment in the decoded value, where Python's rules hold; and the proof
 that the two agree on which leaf a path names.
 */
module JsonPaths {
  import opened Text
  import opened JsonGrammar

  /** One dotted component: its text, and what Python's `int` makes of it (`None` for ValueError). */
  datatype Step = Step(key: Text, index: Option<int>)

  // ---- Navigation --------------------------------------------------------------------------------

  function Count(items: Items): nat {
    match items case NoItems => 0 case Items(_, tail) => 1 + Count(tail)
  }

  function Nth(items: Items, k: nat): Node
    requires k < Count(items)
  {
    if k == 0 then items.head else Nth(items.tail, k - 1)
  }

  /** The last pair with this key, mirroring a dict. */
  function Lookup(pairs: Pairs, key: Text): Option<Node> {
    match pairs
    case NoPairs => None
    case Pairs(k, _, _, child, tail) =>
      var later := Lookup(tail, key);
      if later.Some? then later else if k == key then Some(child) else None
  }

  function Child(n: Node, step: Step): Result<Node> {
    match n
    case Leaf(_, _, _) => Err(SurgicalError)
    case Array(_, _, items) =>
      if step.index.Some? && 0 <= step.index.value < Count(items) then Ok(Nth(items, step.index.value))
      else Err(SurgicalError)
    case Object(_, _, pairs) =>
      (match Lookup(pairs, step.key) case Some(child) => Ok(child) case None => Err(SurgicalError))
  }

  function Navigate(n: Node, path: seq<Step>): Result<Node>
    decreases |path|
  {
    if path == [] then Ok(n)
    else match Child(n, path[0]) case Err(e) => Err(e) case Ok(child) => Navigate(child, path[1..])
  }

  // ---- Reading and assigning inside a decoded value -------------------------------------------------

  function Length(values: Values): nat {
    match values case NoValues => 0 case Values(_, tail) => 1 + Length(tail)
  }

  function NthValue(values: Values, k: nat): Value
    requires k < Length(values)
  {
    if k == 0 then values.head else NthValue(values.tail, k - 1)
  }

  function SetNth(values: Values, k: nat, x: Value): Values
    requires k < Length(values)
  {
    if k == 0 then Values(x, values.tail) else Values(values.head, SetNth(values.tail, k - 1, x))
  }

  /** Python list indexing: a negative index counts from the end. */
  function ListIndex(index: Option<int>, length: nat): (k: Option<nat>)
    ensures k.Some? <==> index.Some? && 0 <= index.value + length && index.value < length
    ensures k.Some? ==> k.value < length && (k.value == index.value || k.value == index.value + length)
  {
    if index.None? then None
    else if 0 <= index.value < length then Some(index.value)
    else if 0 <= index.value + length < length then Some(index.value + length)
    else None
  }

  /** `value[key]` for a dict, `value[int(key)]` for a list; `None` where Python raises. */
  function Get(v: Value, step: Step): Option<Value> {
    match v
    case List(elems) =>
      (match ListIndex(step.index, Length(elems)) case Some(k) => Some(NthValue(elems, k)) case None => None)
    case Dict(entries) => DictGet(entries, step.key)
    case _ => None
  }

  function Put(v: Value, step: Step, x: Value): Option<Value> {
    match v
    case List(elems) =>
      (match ListIndex(step.index, Length(elems)) case Some(k) => Some(List(SetNth(elems, k, x))) case None => None)
    case Dict(entries) => Some(Dict(DictSet(entries, step.key, x)))
    case _ => None
  }

  /** `_set_at_path`: walk to the parent, then assign; `None` where Python raises. */
  function SetAt(v: Value, path: seq<Step>, x: Value): Option<Value>
    requires path != []
    decreases |path|
  {
    if |path| == 1 then Put(v, path[0], x)
    else
      match Get(v, path[0])
      case None => None
      case Some(child) =>
        match SetAt(child, path[1..], x)
        case None => None
        case Some(changed) => Put(v, path[0], changed)
  }

  function GetAt(v: Value, path: seq<Step>): Option<Value>
    decreases |path|
  {
    if path == [] then Some(v)
    else match Get(v, path[0]) case None => None case Some(child) => GetAt(child, path[1..])
  }

  // ---- Trees whose spans are nested and in order ------------------------------------------------------

  predicate Ordered(n: Node) {
    n.start < n.end &&
    match n
    case Leaf(_, _, _) => true
    case Array(start, end, items) => OrderedItems(items, start, end)
    case Object(start, end, pairs) => OrderedPairs(pairs, start, end)
  }

  predicate OrderedItems(items: Items, i: nat, j: nat) {
    match items
    case NoItems => true
    case Items(head, tail) => i <= head.start && Ordered(head) && head.end <= j && OrderedItems(tail, head.end, j)
  }

  predicate OrderedPairs(pairs: Pairs, i: nat, j: nat) {
    match pairs
    case NoPairs => true
    case Pairs(_, _, _, child, tail) =>
      i <= child.start && Ordered(child) && child.end <= j && OrderedPairs(tail, child.end, j)
  }

  lemma {:induction false} DerivedIsOrdered(s: Text, n: Node, d: Dialect)
    requires Derives(s, n, d)
    ensures Ordered(n)
    decreases n
  {
    hide TokenValue, WsEnd;
    match n
    case Leaf(_, _, _) =>
    case Array(start, end, items) => DerivedItemsOrdered(s, items, start + 1, end - 1, start, end, d);
    case Object(start, end, pairs) => DerivedPairsOrdered(s, pairs, start + 1, end - 1, start, end, d);
  }

  lemma {:induction false} DerivedItemsOrdered(s: Text, items: Items, i: nat, j: nat, from: nat, to: nat, d: Dialect)
    requires from <= i <= j <= to && j <= |s| && DerivesItems(s, items, i, j, d)
    ensures OrderedItems(items, from, to)
    decreases items
  {
    hide TokenValue, WsEnd;
    if items.Items? {
      DerivedIsOrdered(s, items.head, d);
      var next := WsEnd(s, items.head.end);
      if items.tail.Items? {
        DerivedItemsOrdered(s, items.tail, next + 1, j, items.head.end, to, d);
      }
    }
  }

  lemma {:induction false} DerivedPairsOrdered(s: Text, pairs: Pairs, i: nat, j: nat, from: nat, to: nat, d: Dialect)
    requires from <= i <= j <= to && j <= |s| && DerivesPairs(s, pairs, i, j, d)
    ensures OrderedPairs(pairs, from, to)
    decreases pairs
  {
    hide TokenValue, WsEnd, StringToken;
    if pairs.Pairs? {
      DerivedIsOrdered(s, pairs.child, d);
      var next := WsEnd(s, pairs.child.end);
      if pairs.tail.Pairs? {
        DerivedPairsOrdered(s, pairs.tail, next + 1, j, pairs.child.end, to, d);
      }
    }
  }

  // ---- Giving leaves new values, all at once ------------------------------------------------------------

  /** The tree with each leaf whose start offset is a key of `m` revalued. */
  function SetLeaves(n: Node, m: map<nat, Value>): Node {
    match n
    case Leaf(start, end, value) => Leaf(start, end, if start in m then m[start] else value)
    case Array(start, end, items) => Array(start, end, SetItems(items, m))
    case Object(start, end, pairs) => Object(start, end, SetPairs(pairs, m))
  }

  function SetItems(items: Items, m: map<nat, Value>): Items {
    match items
    case NoItems => NoItems
    case Items(head, tail) => Items(SetLeaves(head, m), SetItems(tail, m))
  }

  function SetPairs(pairs: Pairs, m: map<nat, Value>): Pairs {
    match pairs
    case NoPairs => NoPairs
    case Pairs(key, a, b, child, tail) => Pairs(key, a, b, SetLeaves(child, m), SetPairs(tail, m))
  }

  lemma SetTwice(n: Node, m1: map<nat, Value>, m2: map<nat, Value>)
    ensures SetLeaves(SetLeaves(n, m1), m2) == SetLeaves(n, m1 + m2)
    decreases n
  {
    match n
    case Leaf(_, _, _) =>
    case Array(_, _, items) => SetItemsTwice(items, m1, m2);
    case Object(_, _, pairs) => SetPairsTwice(pairs, m1, m2);
  }

  lemma SetItemsTwice(items: Items, m1: map<nat, Value>, m2: map<nat, Value>)
    ensures SetItems(SetItems(items, m1), m2) == SetItems(items, m1 + m2)
    decreases items
  {
    if items.Items? {
      SetTwice(items.head, m1, m2);
      SetItemsTwice(items.tail, m1, m2);
    }
  }

  lemma SetPairsTwice(pairs: Pairs, m1: map<nat, Value>, m2: map<nat, Value>)
    ensures SetPairs(SetPairs(pairs, m1), m2) == SetPairs(pairs, m1 + m2)
    decreases pairs
  {
    if pairs.Pairs? {
      SetTwice(pairs.child, m1, m2);
      SetPairsTwice(pairs.tail, m1, m2);
    }
  }

  /** Revaluing keeps every span and every order. */
  lemma SetKeepsOrder(n: Node, m: map<nat, Value>)
    requires Ordered(n)
    ensures Ordered(SetLeaves(n, m))
    decreases n
  {
    match n
    case Leaf(_, _, _) =>
    case Array(start, end, items) => SetKeepsItems(items, start, end, m);
    case Object(start, end, pairs) => SetKeepsPairs(pairs, start, end, m);
  }

  lemma SetKeepsItems(items: Items, i: nat, j: nat, m: map<nat, Value>)
    requires OrderedItems(items, i, j)
    ensures OrderedItems(SetItems(items, m), i, j)
    decreases items
  {
    if items.Items? {
      SetKeepsOrder(items.head, m);
      SetKeepsItems(items.tail, items.head.end, j, m);
    }
  }

  lemma SetKeepsPairs(pairs: Pairs, i: nat, j: nat, m: map<nat, Value>)
    requires OrderedPairs(pairs, i, j)
    ensures OrderedPairs(SetPairs(pairs, m), i, j)
    decreases pairs
  {
    if pairs.Pairs? {
      SetKeepsOrder(pairs.child, m);
      SetKeepsPairs(pairs.tail, pairs.child.end, j, m);
    }
  }

  /** A leaf outside a subtree is not one of its leaves. */
  lemma Untouched(n: Node, a: nat, v: Value)
    requires Ordered(n) && (a < n.start || n.end <= a)
    ensures SetLeaves(n, map[a := v]) == n
    decreases n
  {
    match n
    case Leaf(_, _, _) =>
    case Array(start, end, items) => UntouchedItems(items, start, end, a, v);
    case Object(start, end, pairs) => UntouchedPairs(pairs, start, end, a, v);
  }

  lemma UntouchedItems(items: Items, i: nat, j: nat, a: nat, v: Value)
    requires OrderedItems(items, i, j) && (a < i || j <= a)
    ensures SetItems(items, map[a := v]) == items
    decreases items
  {
    if items.Items? {
      Untouched(items.head, a, v);
      UntouchedItems(items.tail, items.head.end, j, a, v);
    }
  }

  lemma UntouchedPairs(pairs: Pairs, i: nat, j: nat, a: nat, v: Value)
    requires OrderedPairs(pairs, i, j) && (a < i || j <= a)
    ensures SetPairs(pairs, map[a := v]) == pairs
    decreases pairs
  {
    if pairs.Pairs? {
      Untouched(pairs.child, a, v);
      UntouchedPairs(pairs.tail, pairs.child.end, j, a, v);
    }
  }

  // ---- Dictionaries ------------------------------------------------------------------------------------

  lemma DictSetTwice(entries: Entries, key: Text, v: Value, w: Value)
    ensures DictSet(DictSet(entries, key, v), key, w) == DictSet(entries, key, w)
  {
  }

  lemma DictSetGet(entries: Entries, key: Text, v: Value, other: Text)
    ensures DictGet(DictSet(entries, key, v), other) == if other == key then Some(v) else DictGet(entries, other)
  {
  }

  lemma DictSetSwap(entries: Entries, key: Text, v: Value, other: Text, w: Value)
    requires key != other && DictGet(entries, key).Some?
    ensures DictSet(DictSet(entries, key, v), other, w) == DictSet(DictSet(entries, other, w), key, v)
  {
  }

  lemma {:induction false} SetBeforeTheRest(entries: Entries, key: Text, v: Value, pairs: Pairs)
    requires DictGet(entries, key).Some? && Lookup(pairs, key).None?
    ensures EntriesOf(DictSet(entries, key, v), pairs) == DictSet(EntriesOf(entries, pairs), key, v)
    decreases pairs
  {
    if pairs.Pairs? {
      var w := ValueOf(pairs.child);
      DictSetSwap(entries, key, v, pairs.key, w);
      DictSetGet(entries, pairs.key, w, key);
      SetBeforeTheRest(DictSet(entries, pairs.key, w), key, v, pairs.tail);
    }
  }

  lemma {:induction false} EntriesGet(entries: Entries, pairs: Pairs, key: Text)
    ensures DictGet(EntriesOf(entries, pairs), key) ==
            match Lookup(pairs, key) case Some(child) => Some(ValueOf(child)) case None => DictGet(entries, key)
    decreases pairs
  {
    if pairs.Pairs? {
      DictSetGet(entries, pairs.key, ValueOf(pairs.child), key);
      EntriesGet(DictSet(entries, pairs.key, ValueOf(pairs.child)), pairs.tail, key);
    }
  }

  lemma {:induction false} LookupSpan(pairs: Pairs, i: nat, j: nat, key: Text)
    requires OrderedPairs(pairs, i, j) && Lookup(pairs, key).Some?
    ensures var child := Lookup(pairs, key).value; i <= child.start && child.end <= j && Ordered(child)
    decreases pairs
  {
    if Lookup(pairs.tail, key).Some? {
      LookupSpan(pairs.tail, pairs.child.end, j, key);
    }
  }

  /** Revaluing a leaf under the visible member with a key assigns that key in the dictionary. */
  lemma {:induction false} SetVisibleMember(entries: Entries, pairs: Pairs, i: nat, j: nat, key: Text, a: nat, v: Value)
    requires OrderedPairs(pairs, i, j) && Lookup(pairs, key).Some?
    requires var child := Lookup(pairs, key).value; child.start <= a < child.end
    ensures EntriesOf(entries, SetPairs(pairs, map[a := v])) ==
            DictSet(EntriesOf(entries, pairs), key, ValueOf(SetLeaves(Lookup(pairs, key).value, map[a := v])))
    decreases pairs
  {
    var m := map[a := v];
    if Lookup(pairs.tail, key).Some? {
      LookupSpan(pairs.tail, pairs.child.end, j, key);
      Untouched(pairs.child, a, v);
      SetVisibleMember(DictSet(entries, pairs.key, ValueOf(pairs.child)), pairs.tail, pairs.child.end, j, key, a, v);
    } else {
      var x, y := ValueOf(pairs.child), ValueOf(SetLeaves(pairs.child, m));
      UntouchedPairs(pairs.tail, pairs.child.end, j, a, v);
      DictSetTwice(entries, key, x, y);
      DictSetGet(entries, key, x, key);
      SetBeforeTheRest(DictSet(entries, key, x), key, y, pairs.tail);
    }
  }

  // ---- Lists ---------------------------------------------------------------------------------------------

  lemma CountIsLength(items: Items)
    ensures Length(ValuesOf(items)) == Count(items)
  {
  }

  lemma {:induction false} NthOfValues(items: Items, k: nat)
    requires k < Count(items)
    ensures k < Length(ValuesOf(items)) && NthValue(ValuesOf(items), k) == ValueOf(Nth(items, k))
    decreases items
  {
    CountIsLength(items);
    if k > 0 {
      NthOfValues(items.tail, k - 1);
    }
  }

  lemma {:induction false} NthSpan(items: Items, i: nat, j: nat, k: nat)
    requires OrderedItems(items, i, j) && k < Count(items)
    ensures i <= Nth(items, k).start && Nth(items, k).end <= j && Ordered(Nth(items, k))
    decreases items
  {
    if k > 0 {
      NthSpan(items.tail, items.head.end, j, k - 1);
    }
  }

  lemma {:induction false} SetElement(items: Items, i: nat, j: nat, k: nat, a: nat, v: Value)
    requires OrderedItems(items, i, j) && k < Count(items) && Nth(items, k).start <= a < Nth(items, k).end
    ensures k < Length(ValuesOf(items))
    ensures ValuesOf(SetItems(items, map[a := v])) ==
            SetNth(ValuesOf(items), k, ValueOf(SetLeaves(Nth(items, k), map[a := v])))
    decreases items
  {
    CountIsLength(items);
    NthSpan(items, i, j, k);
    if k == 0 {
      UntouchedItems(items.tail, items.head.end, j, a, v);
    } else {
      NthSpan(items.tail, items.head.end, j, k - 1);
      Untouched(items.head, a, v);
      SetElement(items.tail, items.head.end, j, k - 1, a, v);
    }
  }

  // ---- Paths -----------------------------------------------------------------------------------------------

  lemma ChildSpan(n: Node, step: Step)
    requires Ordered(n) && Child(n, step).Ok?
    ensures var c := Child(n, step).value; n.start <= c.start && c.end <= n.end && Ordered(c)
  {
    if n.Array? {
      NthSpan(n.items, n.start, n.end, step.index.value);
    } else {
      LookupSpan(n.pairs, n.start, n.end, step.key);
    }
  }

  lemma {:induction false} TargetSpan(n: Node, path: seq<Step>)
    requires Ordered(n) && Navigate(n, path).Ok?
    ensures var t := Navigate(n, path).value; n.start <= t.start && t.end <= n.end && Ordered(t)
    decreases |path|
  {
    if path != [] {
      ChildSpan(n, path[0]);
      TargetSpan(Child(n, path[0]).value, path[1..]);
    }
  }

  lemma ChildValue(n: Node, step: Step)
    requires Child(n, step).Ok?
    ensures Get(ValueOf(n), step) == Some(ValueOf(Child(n, step).value))
  {
    if n.Array? {
      CountIsLength(n.items);
      NthOfValues(n.items, step.index.value);
    } else {
      EntriesGet(NoEntries, n.pairs, step.key);
    }
  }

  lemma SetChild(n: Node, step: Step, a: nat, v: Value)
    requires Ordered(n) && Child(n, step).Ok?
    requires var c := Child(n, step).value; c.start <= a < c.end
    ensures Put(ValueOf(n), step, ValueOf(SetLeaves(Child(n, step).value, map[a := v]))) ==
            Some(ValueOf(SetLeaves(n, map[a := v])))
  {
    if n.Array? {
      CountIsLength(n.items);
      SetElement(n.items, n.start, n.end, step.index.value, a, v);
    } else {
      SetVisibleMember(NoEntries, n.pairs, n.start, n.end, step.key, a, v);
    }
  }

  /** Assigning along a path is revaluing the leaf the path names, and nothing else. */
  lemma {:induction false} SetAtIsSetLeaf(n: Node, path: seq<Step>, v: Value)
    requires path != [] && Ordered(n) && Navigate(n, path).Ok? && Navigate(n, path).value.Leaf?
    ensures SetAt(ValueOf(n), path, v) == Some(ValueOf(SetLeaves(n, map[Navigate(n, path).value.start := v])))
    decreases |path|
  {
    hide Child, Get, Put, ValueOf;
    var child := Child(n, path[0]).value;
    var leaf := Navigate(n, path).value;
    var m := map[leaf.start := v];
    ChildSpan(n, path[0]);
    TargetSpan(child, path[1..]);
    SetChild(n, path[0], leaf.start, v);
    if |path| == 1 {
      assert child == leaf;
      LeafValue(SetLeaves(leaf, m));
    } else {
      ChildValue(n, path[0]);
      SetAtIsSetLeaf(child, path[1..], v);
    }
  }

  lemma LeafValue(n: Node)
    requires n.Leaf?
    ensures ValueOf(n) == n.value
  {
  }

  lemma {:induction false} NavigatedValue(n: Node, path: seq<Step>)
    requires Navigate(n, path).Ok?
    ensures GetAt(ValueOf(n), path) == Some(ValueOf(Navigate(n, path).value))
    decreases |path|
  {
    hide Child, Get, ValueOf;
    if path != [] {
      ChildValue(n, path[0]);
      NavigatedValue(Child(n, path[0]).value, path[1..]);
    }
  }

  lemma CountSet(items: Items, m: map<nat, Value>)
    ensures Count(SetItems(items, m)) == Count(items)
  {
  }

  lemma {:induction false} NthSet(items: Items, k: nat, m: map<nat, Value>)
    requires k < Count(items)
    ensures k < Count(SetItems(items, m)) && Nth(SetItems(items, m), k) == SetLeaves(Nth(items, k), m)
    decreases items
  {
    CountSet(items, m);
    if k > 0 {
      NthSet(items.tail, k - 1, m);
    }
  }

  lemma {:induction false} LookupSet(pairs: Pairs, key: Text, m: map<nat, Value>)
    ensures Lookup(SetPairs(pairs, m), key) ==
            match Lookup(pairs, key) case Some(child) => Some(SetLeaves(child, m)) case None => None
    decreases pairs
  {
    if pairs.Pairs? {
      LookupSet(pairs.tail, key, m);
    }
  }

  /** Revaluing leaves does not change where paths lead. */
  lemma {:induction false} NavigateSet(n: Node, path: seq<Step>, m: map<nat, Value>)
    ensures Navigate(SetLeaves(n, m), path) ==
            match Navigate(n, path) case Ok(t) => Ok(SetLeaves(t, m)) case Err(e) => Err(e)
    decreases |path|
  {
    if path != [] {
      match n {
        case Leaf(_, _, _) =>
        case Array(_, _, items) =>
          CountSet(items, m);
          if path[0].index.Some? && 0 <= path[0].index.value < Count(items) {
            NthSet(items, path[0].index.value, m);
          }
        case Object(_, _, pairs) =>
          LookupSet(pairs, path[0].key, m);
      }
      if Child(n, path[0]).Ok? {
        NavigateSet(Child(n, path[0]).value, path[1..], m);
      }
    }
  }
}
