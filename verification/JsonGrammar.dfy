/**
 The grammar of JSON texts (RFC 8259, sections 2 to 7) as derivation trees over offsets.

 A `Node` is the parser's record of one value: what it is and where its raw text stands.  `Derives`
 says, without reference to any parser, that a text really has that structure.
 The surgical parser accepts the `Strict` dialect; `json.loads`, which guards the surgery, also
 accepts the three constants of `Lenient`.
 */
module JsonGrammar {
  import opened Text
  import opened JsonStrings
  import opened JsonNumbers

  datatype Dialect = Strict | Lenient

  /** A decoded Python value; a dictionary keeps its insertion order. */
  datatype Value =
    | Null
    | Bool(b: bool)
    | Num(num: Number)
    | NaN
    | Infinite(negative: bool)
    | Str(s: Text)
    | List(elems: Values)
    | Dict(entries: Entries)

  datatype Values = NoValues | Values(head: Value, tail: Values)

  datatype Entries = NoEntries | Entries(key: Text, value: Value, tail: Entries)

  datatype Node =
    | Leaf(start: nat, end: nat, value: Value)
    | Array(start: nat, end: nat, items: Items)
    | Object(start: nat, end: nat, pairs: Pairs)

  datatype Items = NoItems | Items(head: Node, tail: Items)

  /** `(key, child)` in source order, with the span of the key token. */
  datatype Pairs = NoPairs | Pairs(key: Text, keyStart: nat, keyEnd: nat, child: Node, tail: Pairs)

  const TRUE: Text := [116, 114, 117, 101]
  const FALSE: Text := [102, 97, 108, 115, 101]
  const NULL: Text := [110, 117, 108, 108]
  const NAN: Text := [78, 97, 78]
  const INFINITY: Text := [73, 110, 102, 105, 110, 105, 116, 121]
  const NEGATIVE_INFINITY: Text := [MINUS] + INFINITY

  // ---- Tokens --------------------------------------------------------------------------------

  function StringToken(t: Text): Option<Text> {
    if |t| >= 2 && t[0] == QUOTE && t[|t| - 1] == QUOTE then Decode(t[1..|t| - 1]) else None
  }

  predicate IsConstant(t: Text, d: Dialect) {
    t == TRUE || t == FALSE || t == NULL || (d == Lenient && (t == NAN || t == INFINITY || t == NEGATIVE_INFINITY))
  }

  function ConstantValue(t: Text): Value
    requires IsConstant(t, Lenient)
  {
    if t == TRUE then Bool(true)
    else if t == FALSE then Bool(false)
    else if t == NULL then Null
    else if t == NAN then NaN
    else Infinite(t == NEGATIVE_INFINITY)
  }

  /** The value of a scalar token, if it is one. */
  function TokenValue(t: Text, d: Dialect): Option<Value> {
    if t == [] then None
    else if t[0] == QUOTE then
      (match StringToken(t) case None => None case Some(s) => Some(Str(s)))
    else if IsConstant(t, d) then Some(ConstantValue(t))
    else match NumberValue(t) case None => None case Some(n) => Some(Num(n))
  }

  // ---- Derivations ---------------------------------------------------------------------------

  predicate Derives(s: Text, n: Node, d: Dialect) {
    n.start < n.end <= |s| &&
    match n
    case Leaf(start, end, value) => TokenValue(s[start..end], d) == Some(value)
    case Array(start, end, items) =>
      && start + 1 < end && s[start] == LBRACKET && s[end - 1] == RBRACKET
      && DerivesItems(s, items, start + 1, end - 1, d)
    case Object(start, end, pairs) =>
      && start + 1 < end && s[start] == LBRACE && s[end - 1] == RBRACE
      && DerivesPairs(s, pairs, start + 1, end - 1, d)
  }

  /** `[i, j)` holds the given values, in order, separated by commas, and otherwise whitespace. */
  predicate DerivesItems(s: Text, items: Items, i: nat, j: nat, d: Dialect)
    requires i <= j <= |s|
  {
    match items
    case NoItems => WsEnd(s, i) == j
    case Items(head, tail) =>
      && head.start == WsEnd(s, i) && Derives(s, head, d)
      && var next := WsEnd(s, head.end);
      && next <= j
      && if tail.NoItems? then next == j
         else next < j && s[next] == COMMA && DerivesItems(s, tail, next + 1, j, d)
  }

  /** `[i, j)` holds the given members, in order, separated by commas, and otherwise whitespace. */
  predicate DerivesPairs(s: Text, pairs: Pairs, i: nat, j: nat, d: Dialect)
    requires i <= j <= |s|
  {
    match pairs
    case NoPairs => WsEnd(s, i) == j
    case Pairs(key, keyStart, keyEnd, child, tail) =>
      && DerivesKey(s, key, keyStart, keyEnd, i, child.start) && Derives(s, child, d)
      && var next := WsEnd(s, child.end);
      && next <= j
      && if tail.NoPairs? then next == j
         else next < j && s[next] == COMMA && DerivesPairs(s, tail, next + 1, j, d)
  }

  /** From `i`: the key token and the colon, up to where the child starts. */
  predicate DerivesKey(s: Text, key: Text, keyStart: nat, keyEnd: nat, i: nat, childStart: nat)
    requires i <= |s|
  {
    && keyStart == WsEnd(s, i) && keyStart < keyEnd <= |s|
    && StringToken(s[keyStart..keyEnd]) == Some(key)
    && var colon := WsEnd(s, keyEnd);
    && colon < |s| && s[colon] == COLON && childStart == WsEnd(s, colon + 1)
  }

  predicate DerivesDocument(s: Text, root: Node, d: Dialect) {
    root.start == WsEnd(s, 0) && Derives(s, root, d) && WsEnd(s, root.end) == |s|
  }

  // ---- Decoding ------------------------------------------------------------------------------

  /** `entries[key] = value` on a Python dict: an existing key keeps its place. */
  function DictSet(entries: Entries, key: Text, value: Value): Entries {
    match entries
    case NoEntries => Entries(key, value, NoEntries)
    case Entries(k, v, tail) =>
      if k == key then Entries(key, value, tail) else Entries(k, v, DictSet(tail, key, value))
  }

  function DictGet(entries: Entries, key: Text): Option<Value> {
    match entries
    case NoEntries => None
    case Entries(k, v, tail) => if k == key then Some(v) else DictGet(tail, key)
  }

  function ValueOf(n: Node): Value {
    match n
    case Leaf(_, _, value) => value
    case Array(_, _, items) => List(ValuesOf(items))
    case Object(_, _, pairs) => Dict(EntriesOf(NoEntries, pairs))
  }

  function ValuesOf(items: Items): Values {
    match items
    case NoItems => NoValues
    case Items(head, tail) => Values(ValueOf(head), ValuesOf(tail))
  }

  /** Later members win, as in `json.loads`. */
  function EntriesOf(soFar: Entries, pairs: Pairs): Entries
    decreases pairs
  {
    match pairs
    case NoPairs => soFar
    case Pairs(key, _, _, child, tail) => EntriesOf(DictSet(soFar, key, ValueOf(child)), tail)
  }
}
