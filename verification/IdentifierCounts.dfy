/**
 Counting both bases in a decoded document, an independent check on the rewriting: the old ones are what the token
 pass counted, less what stands in keys and values that later members of the same object overwrite; afterwards
 there are none, and every one of them has become a new one.
 */
module IdentifierCounts {
  import opened Text
  import opened JsonGrammar
  import opened JsonDumps
  import opened JsonParser
  import opened JsonPaths
  import opened JsonValues
  import opened IdentifierText
  import opened IdentifierBases
  import opened IdentifierBase

  function CountDecoded(v: Value, b: Base): nat {
    match v
    case Str(s) => CountOf(s, b)
    case List(elems) => CountElems(elems, b)
    case Dict(entries) => CountEntries(entries, b)
    case _ => 0
  }

  function CountElems(elems: Values, b: Base): nat {
    match elems case NoValues => 0 case Values(v, tail) => CountDecoded(v, b) + CountElems(tail, b)
  }

  function CountEntries(entries: Entries, b: Base): nat {
    match entries
    case NoEntries => 0
    case Entries(key, v, tail) => CountOf(key, b) + CountDecoded(v, b) + CountEntries(tail, b)
  }

  // ---- The stack loop --------------------------------------------------------------------------------

  function Weight(v: Value): nat {
    match v
    case List(elems) => 1 + WeightElems(elems)
    case Dict(entries) => 1 + WeightEntries(entries)
    case _ => 1
  }

  function WeightElems(elems: Values): nat {
    match elems case NoValues => 0 case Values(v, tail) => Weight(v) + WeightElems(tail)
  }

  function WeightEntries(entries: Entries): nat {
    match entries case NoEntries => 0 case Entries(_, v, tail) => 1 + Weight(v) + WeightEntries(tail)
  }

  function CountStack(stack: seq<Value>, b: Base): nat {
    if stack == [] then 0 else CountStack(stack[..|stack| - 1], b) + CountDecoded(stack[|stack| - 1], b)
  }

  function WeightStack(stack: seq<Value>): nat {
    if stack == [] then 0 else WeightStack(stack[..|stack| - 1]) + Weight(stack[|stack| - 1])
  }

  lemma {:induction false} StackJoin(x: seq<Value>, y: seq<Value>, b: Base)
    ensures CountStack(x + y, b) == CountStack(x, b) + CountStack(y, b)
    ensures WeightStack(x + y) == WeightStack(x) + WeightStack(y)
    decreases |y|
  {
    hide CountDecoded, Weight;
    if y == [] {
      assert x + y == x;
    } else {
      assert (x + y)[..|x + y| - 1] == x + y[..|y| - 1];
      StackJoin(x, y[..|y| - 1], b);
    }
  }

  function Elements(elems: Values): seq<Value> {
    match elems case NoValues => [] case Values(v, tail) => [v] + Elements(tail)
  }

  /** A dictionary's keys, as values, and its values. */
  function KeysAndValues(entries: Entries): seq<Value> {
    match entries case NoEntries => [] case Entries(key, v, tail) => [Str(key), v] + KeysAndValues(tail)
  }

  lemma {:induction false} ElementsStack(elems: Values, b: Base)
    ensures CountStack(Elements(elems), b) == CountElems(elems, b) && WeightStack(Elements(elems)) == WeightElems(elems)
    decreases elems
  {
    if elems.Values? {
      ElementsStack(elems.tail, b);
      StackJoin([elems.head], Elements(elems.tail), b);
      assert [elems.head][..0] == [];
    }
  }

  lemma {:induction false} MembersStack(entries: Entries, b: Base)
    ensures CountStack(KeysAndValues(entries), b) == CountEntries(entries, b)
    ensures WeightStack(KeysAndValues(entries)) == WeightEntries(entries)
    decreases entries
  {
    if entries.Entries? {
      MembersStack(entries.tail, b);
      var pair := [Str(entries.key), entries.value];
      StackJoin(pair, KeysAndValues(entries.tail), b);
      assert pair[..1] == [Str(entries.key)] && [Str(entries.key)][..0] == [];
      assert CountStack(pair, b) == CountStack(pair[..1], b) + CountDecoded(entries.value, b);
      assert WeightStack(pair) == WeightStack(pair[..1]) + Weight(entries.value);
    }
  }

  /** `identifier_base_counts` on a decoded document. */
  method BaseCount(document: Value) returns (oldCount: nat, newCount: nat)
    ensures oldCount == CountDecoded(document, Old) && newCount == CountDecoded(document, New)
  {
    hide CountDecoded, Weight, Elements, KeysAndValues, CountOf;
    oldCount, newCount := 0, 0;
    var stack := [document];
    assert stack[..0] == [];
    while stack != []
      invariant oldCount + CountStack(stack, Old) == CountDecoded(document, Old)
      invariant newCount + CountStack(stack, New) == CountDecoded(document, New)
      decreases WeightStack(stack)
    {
      var value := stack[|stack| - 1];
      stack := stack[..|stack| - 1];
      Popped(value, Old);
      Popped(value, New);
      match value {
        case Str(s) => oldCount, newCount := oldCount + CountOf(s, Old), newCount + CountOf(s, New);
        case Dict(entries) => stack := Pushed(stack, KeysAndValues(entries), value);
        case List(elems) => stack := Pushed(stack, Elements(elems), value);
        case _ =>
      }
    }
  }

  /** `stack.extend`, with a container's keys and values. */
  method Pushed(stack: seq<Value>, inner: seq<Value>, ghost v: Value) returns (r: seq<Value>)
    requires (v.Dict? && inner == KeysAndValues(v.entries)) || (v.List? && inner == Elements(v.elems))
    ensures r == stack + inner && WeightStack(r) == WeightStack(stack) + Weight(v) - 1
    ensures CountStack(r, Old) == CountStack(stack, Old) + CountDecoded(v, Old)
    ensures CountStack(r, New) == CountStack(stack, New) + CountDecoded(v, New)
  {
    hide Elements, KeysAndValues;
    if v.Dict? {
      MembersStack(v.entries, Old);
      MembersStack(v.entries, New);
    } else {
      ElementsStack(v.elems, Old);
      ElementsStack(v.elems, New);
    }
    StackJoin(stack, inner, Old);
    StackJoin(stack, inner, New);
    r := stack + inner;
  }

  lemma Popped(v: Value, b: Base)
    ensures Weight(v) == 1 + (if v.List? then WeightElems(v.elems) else if v.Dict? then WeightEntries(v.entries) else 0)
    ensures CountDecoded(v, b) == if v.Str? then CountOf(v.s, b) else if v.List? then CountElems(v.elems, b)
                               else if v.Dict? then CountEntries(v.entries, b) else 0
  {
  }

  // ---- Against the token count ---------------------------------------------------------------------------

  /** What decoding drops: wherever an object repeats a key, that key and the value it had. */
  function Overwritten(n: Node): seq<Value> {
    match n
    case Leaf(_, _, _) => []
    case Array(_, _, items) => OverwrittenItems(items)
    case Object(_, _, pairs) => OverwrittenPairs(NoEntries, pairs)
  }

  function OverwrittenItems(items: Items): seq<Value> {
    match items case NoItems => [] case Items(head, tail) => Overwritten(head) + OverwrittenItems(tail)
  }

  function OverwrittenPairs(soFar: Entries, pairs: Pairs): seq<Value>
    decreases pairs
  {
    match pairs
    case NoPairs => []
    case Pairs(key, _, _, child, tail) =>
      Overwritten(child) + Displaced(soFar, key) + OverwrittenPairs(DictSet(soFar, key, ValueOf(child)), tail)
  }

  /** The key and its value, if the dictionary has it already. */
  function Displaced(soFar: Entries, key: Text): seq<Value> {
    match DictGet(soFar, key) case None => [] case Some(v) => [Str(key), v]
  }

  /** Scalars are leaves. */
  predicate ScalarLeaves(n: Node) {
    match n
    case Leaf(_, _, v) => !v.List? && !v.Dict?
    case Array(_, _, items) => ScalarItems(items)
    case Object(_, _, pairs) => ScalarPairs(pairs)
  }

  predicate ScalarItems(items: Items) {
    match items case NoItems => true case Items(head, tail) => ScalarLeaves(head) && ScalarItems(tail)
  }

  predicate ScalarPairs(pairs: Pairs) {
    match pairs case NoPairs => true case Pairs(_, _, _, child, tail) => ScalarLeaves(child) && ScalarPairs(tail)
  }

  /** The bases in all the decoded strings and keys of a tree. */
  function NodeCount(n: Node, b: Base): nat {
    match n
    case Leaf(_, _, v) => if v.Str? then CountOf(v.s, b) else 0
    case Array(_, _, items) => ItemCount(items, b)
    case Object(_, _, pairs) => PairCount(pairs, b)
  }

  function ItemCount(items: Items, b: Base): nat {
    match items case NoItems => 0 case Items(head, tail) => NodeCount(head, b) + ItemCount(tail, b)
  }

  function PairCount(pairs: Pairs, b: Base): nat {
    match pairs
    case NoPairs => 0
    case Pairs(key, _, _, child, tail) => CountOf(key, b) + NodeCount(child, b) + PairCount(tail, b)
  }

  /** The rewriting turns the old bases into new ones. */
  lemma {:induction false} NodeCounted(s: Text, n: Node)
    ensures NodeCount(n, Old) == CountNode(n)
    ensures NodeCount(Rewritten(s, n), New) == NodeCount(n, Old) + NodeCount(n, New)
    decreases n
  {
    hide CountOf, IdentifierText.Count, Place, Replace;
    match n
    case Leaf(_, _, v) =>
      if v.Str? {
        CountOfOld(v.s);
        NewCounted(v.s);
      }
    case Array(_, _, items) => ItemsCounted(s, items);
    case Object(_, _, pairs) => PairsCounted(s, pairs);
  }

  lemma {:induction false} ItemsCounted(s: Text, items: Items)
    ensures ItemCount(items, Old) == CountItems(items)
    ensures ItemCount(RewrittenItems(s, items), New) == ItemCount(items, Old) + ItemCount(items, New)
    decreases items
  {
    hide NodeCount, CountNode, Rewritten;
    if items.Items? {
      NodeCounted(s, items.head);
      ItemsCounted(s, items.tail);
    }
  }

  lemma {:induction false} PairsCounted(s: Text, pairs: Pairs)
    ensures PairCount(pairs, Old) == CountPairs(pairs)
    ensures PairCount(RewrittenPairs(s, pairs), New) == PairCount(pairs, Old) + PairCount(pairs, New)
    decreases pairs
  {
    hide NodeCount, CountNode, Rewritten, CountOf, IdentifierText.Count, Replace;
    if pairs.Pairs? {
      CountOfOld(pairs.key);
      NewCounted(pairs.key);
      NodeCounted(s, pairs.child);
      PairsCounted(s, pairs.tail);
    }
  }

  lemma {:induction false} DictSetCount(entries: Entries, key: Text, v: Value, b: Base)
    ensures CountEntries(DictSet(entries, key, v), b) + CountStack(Displaced(entries, key), b) ==
            CountEntries(entries, b) + CountOf(key, b) + CountDecoded(v, b)
    decreases entries
  {
    hide CountDecoded, CountOf;
    match entries
    case NoEntries =>
    case Entries(k, was, tail) =>
      if k == key {
        DisplacedCount(key, was, b);
      } else {
        DictSetCount(tail, key, v, b);
      }
  }

  lemma DisplacedCount(key: Text, was: Value, b: Base)
    ensures CountStack([Str(key), was], b) == CountOf(key, b) + CountDecoded(was, b)
  {
    hide CountOf;
    assert [Str(key), was][..1] == [Str(key)] && [Str(key)][..0] == [];
    assert CountStack([Str(key)], b) == CountOf(key, b);
  }

  lemma {:induction false} DecodedCount(n: Node, b: Base)
    requires ScalarLeaves(n)
    ensures NodeCount(n, b) == CountDecoded(ValueOf(n), b) + CountStack(Overwritten(n), b)
    decreases n
  {
    hide CountOf;
    match n
    case Leaf(_, _, _) =>
    case Array(_, _, items) => DecodedItems(items, b);
    case Object(_, _, pairs) => DecodedPairs(NoEntries, pairs, b);
  }

  lemma {:induction false} DecodedItems(items: Items, b: Base)
    requires ScalarItems(items)
    ensures ItemCount(items, b) == CountElems(ValuesOf(items), b) + CountStack(OverwrittenItems(items), b)
    decreases items
  {
    hide CountOf, CountDecoded, ValueOf, Overwritten;
    if items.Items? {
      DecodedCount(items.head, b);
      DecodedItems(items.tail, b);
      StackJoin(Overwritten(items.head), OverwrittenItems(items.tail), b);
    }
  }

  lemma {:induction false} DecodedPairs(soFar: Entries, pairs: Pairs, b: Base)
    requires ScalarPairs(pairs)
    ensures CountEntries(soFar, b) + PairCount(pairs, b) ==
            CountEntries(EntriesOf(soFar, pairs), b) + CountStack(OverwrittenPairs(soFar, pairs), b)
    decreases pairs
  {
    hide CountOf, CountDecoded, ValueOf, Overwritten, Displaced;
    if pairs.Pairs? {
      var next := DictSet(soFar, pairs.key, ValueOf(pairs.child));
      DecodedCount(pairs.child, b);
      DictSetCount(soFar, pairs.key, ValueOf(pairs.child), b);
      DecodedPairs(next, pairs.tail, b);
      StackJoin(Overwritten(pairs.child) + Displaced(soFar, pairs.key), OverwrittenPairs(next, pairs.tail), b);
      StackJoin(Overwritten(pairs.child), Displaced(soFar, pairs.key), b);
    }
  }

  lemma {:induction false} NothingCounted(stack: seq<Value>, b: Base)
    ensures CountStack(stack, b) == 0 <==> forall k :: 0 <= k < |stack| ==> CountDecoded(stack[k], b) == 0
    decreases |stack|
  {
    hide CountDecoded;
    if stack != [] {
      NothingCounted(stack[..|stack| - 1], b);
    }
  }

  lemma TokenIsScalar(t: Text, d: Dialect)
    requires TokenValue(t, d).Some?
    ensures !TokenValue(t, d).value.List? && !TokenValue(t, d).value.Dict?
  {
  }

  lemma {:induction false} DerivedLeaves(s: Text, n: Node, d: Dialect)
    requires Derives(s, n, d)
    ensures ScalarLeaves(n)
    decreases n
  {
    hide TokenValue, WsEnd;
    match n
    case Leaf(start, end, _) => TokenIsScalar(s[start..end], d);
    case Array(start, end, items) => DerivedItemLeaves(s, items, start + 1, end - 1, d);
    case Object(start, end, pairs) => DerivedPairLeaves(s, pairs, start + 1, end - 1, d);
  }

  lemma {:induction false} DerivedItemLeaves(s: Text, items: Items, i: nat, j: nat, d: Dialect)
    requires i <= j <= |s| && DerivesItems(s, items, i, j, d)
    ensures ScalarItems(items)
    decreases items
  {
    hide WsEnd, Derives;
    if items.Items? {
      DerivedLeaves(s, items.head, d);
      if items.tail.Items? {
        DerivedItemLeaves(s, items.tail, WsEnd(s, items.head.end) + 1, j, d);
      }
    }
  }

  lemma {:induction false} DerivedPairLeaves(s: Text, pairs: Pairs, i: nat, j: nat, d: Dialect)
    requires i <= j <= |s| && DerivesPairs(s, pairs, i, j, d)
    ensures ScalarPairs(pairs)
    decreases pairs
  {
    hide WsEnd, Derives, DerivesKey;
    if pairs.Pairs? {
      DerivedLeaves(s, pairs.child, d);
      if pairs.tail.Pairs? {
        DerivedPairLeaves(s, pairs.tail, WsEnd(s, pairs.child.end) + 1, j, d);
      }
    }
  }

  /**
   The two ways of counting, before and after the rewriting.  They agree exactly when nothing that a later member
   overwrites holds the old base.
   */
  lemma CountsAgree(s: Text, root: Node, d: Dialect)
    requires DerivesDocument(s, root, d)
    ensures CountText(s, 0) == CountDecoded(ValueOf(root), Old) + CountStack(Overwritten(root), Old)
    ensures CountDecoded(ValueOf(root), Old) == CountText(s, 0) <==>
            forall k :: 0 <= k < |Overwritten(root)| ==> CountDecoded(Overwritten(root)[k], Old) == 0
    ensures CountDecoded(ValueOf(Rewritten(s, root)), Old) == 0
  {
    hide CountText, CountDecoded, Rewrite, Rewritten, WsEnd, Derives, Overwritten, ValueOf, CountNode, NodeCount;
    DocumentRewritten(s, root, d);
    DerivedLeaves(s, root, d);
    DecodedCount(root, Old);
    NodeCounted(s, root);
    NothingCounted(Overwritten(root), Old);
    RewrittenCounts(s, root);
    DerivedLeaves(Rewrite(s, 0), Rewritten(s, root), d);
    DecodedCount(Rewritten(s, root), Old);
    NodeCounted(s, Rewritten(s, root));
  }

  /**
   No base is lost: afterwards the new bases are those there were and one for each the token pass replaced, where
   what decoding drops is counted on either side.
   */
  lemma BasesConserved(s: Text, root: Node, d: Dialect)
    requires DerivesDocument(s, root, d)
    ensures var after := Rewritten(s, root);
            && DerivesDocument(Rewrite(s, 0), after, d)
            && CountDecoded(ValueOf(after), New) + CountStack(Overwritten(after), New) ==
               CountText(s, 0) + CountDecoded(ValueOf(root), New) + CountStack(Overwritten(root), New)
  {
    hide CountText, CountDecoded, Rewrite, Rewritten, WsEnd, Derives, Overwritten, ValueOf, CountNode, NodeCount;
    DocumentRewritten(s, root, d);
    DerivedLeaves(s, root, d);
    DecodedCount(root, New);
    NodeCounted(s, root);
    DerivedLeaves(Rewrite(s, 0), Rewritten(s, root), d);
    DecodedCount(Rewritten(s, root), New);
  }

  /** The dictionary `{key: text, key: None}` as it is written. */
  function Repeating(key: Text, text: Text): Py {
    PyDict(PyMembers(key, PyStr(text), PyMembers(key, PyNone, NoMembers)))
  }

  lemma LaterMember(key: Text, text: Text, at: nat)
    ensures var pairs := MemberTrees(PyMembers(key, PyNone, NoMembers), false, at);
            && OverwrittenPairs(Entries(key, Str(text), NoEntries), pairs) == [Str(key), Str(text)]
            && EntriesOf(Entries(key, Str(text), NoEntries), pairs) == Entries(key, Null, NoEntries)
  {
    hide Dump, DumpString;
    FaithfulStringKept(key, false);
    var pairs := MemberTrees(PyMembers(key, PyNone, NoMembers), false, at);
    var colon := at + |DumpString(key, false)|;
    assert pairs.child == Tree(PyNone, false, colon + 1) && ValueOf(pairs.child) == Null;
    assert pairs.tail == MemberTrees(NoMembers, false, colon + 1 + |Dump(PyNone, false)| + 1);
  }

  lemma RepeatingTree(key: Text, text: Text)
    ensures Overwritten(Tree(Repeating(key, text), false, 0)) == [Str(key), Str(text)]
    ensures ValueOf(Tree(Repeating(key, text), false, 0)) == Dict(Entries(key, Null, NoEntries))
  {
    hide Dump, DumpString;
    FaithfulStringKept(key, false);
    FaithfulStringKept(text, false);
    var later := PyMembers(key, PyNone, NoMembers);
    var pairs := MemberTrees(PyMembers(key, PyStr(text), later), false, 1);
    var colon := 1 + |DumpString(key, false)|;
    var after := colon + 1 + |Dump(PyStr(text), false)| + 1;
    assert Tree(Repeating(key, text), false, 0).pairs == pairs && pairs.tail == MemberTrees(later, false, after);
    assert pairs.child == Tree(PyStr(text), false, colon + 1) && ValueOf(pairs.child) == Str(text);
    LaterMember(key, text, after);
    assert OverwrittenPairs(NoEntries, pairs) ==
           OverwrittenPairs(Entries(key, Str(text), NoEntries), pairs.tail);
  }

  /** A document that repeats the key `a`: the old base stands under the first and is gone once decoded. */
  lemma OverwrittenBase() returns (s: Text, root: Node)
    ensures ParseDocument(s, Lenient) == Ok(root) && CountText(s, 0) == 1 && CountDecoded(ValueOf(root), Old) == 0
  {
    hide CountText, Derives, ParseDocument, ParseValue, WsEnd, Dump, DumpString, Tree, ValueOf, Overwritten,
      CountOf, Rewritten, Reloaded;
    var a: Text := [97];
    var p := Repeating(a, OLD);
    s, root := Dump(p, false), Tree(p, false, 0);
    DumpsLoads(p, false);
    ParserIsExact(s, root, Lenient);
    CountsAgree(s, root, Lenient);
    RepeatingTree(a, OLD);
    ShortKey(a);
    OldOnce();
    DisplacedCount(a, Str(OLD), Old);
  }

  lemma ShortKey(key: Text)
    requires |key| == 1
    ensures CountOf(key, Old) == 0
  {
    OldLetters();
    assert key[1..] == [];
  }

  lemma OldOnce()
    ensures CountOf(OLD, Old) == 1
  {
    hide OLD;
    OldLetters();
    assert OLD[..|OLD|] == OLD && OLD[|OLD|..] == [];
  }
}
