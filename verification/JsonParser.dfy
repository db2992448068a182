/**
 The position-tracking recursive-descent parser, as a function on offsets, and the proof that it accepts
 exactly the grammar: it returns a tree if and only if the text derives that tree, so that the tree, its
 offsets included, is determined by the text.
 */
module JsonParser {
  import opened Text
  import opened JsonStrings
  import opened JsonNumbers
  import opened JsonGrammar

  datatype ParsedItems = ParsedItems(items: Items, end: nat)
  datatype ParsedPairs = ParsedPairs(pairs: Pairs, end: nat)

  function NumEnd(s: Text, i: nat): (j: nat)
    requires i <= |s|
    ensures i <= j <= |s|
    decreases |s| - i
  {
    if i < |s| && IsNumChar(s[i]) then NumEnd(s, i + 1) else i
  }

  predicate StartsWith(s: Text, i: nat, t: Text) {
    i + |t| <= |s| && s[i..i + |t|] == t
  }

  // ---- The parser as a function --------------------------------------------------------------

  function ParseString(s: Text, i: nat): (r: Result<nat>)
    requires i < |s| && s[i] == QUOTE
    ensures r.Ok? ==> i + 1 < r.value <= |s|
  {
    match StringEnd(s, i + 1)
    case None => Err(SurgicalError)
    case Some(e) => if Decode(s[i + 1..e - 1]).Some? then Ok(e) else Err(ValueError)
  }

  function ParseNumber(s: Text, i: nat): (r: Result<nat>)
    requires i < |s|
    ensures r.Ok? ==> i < r.value <= |s|
  {
    var e := NumEnd(s, i);
    if NumberValue(s[i..e]).Some? then Ok(e) else Err(ValueError)
  }

  function ParseLiteral(s: Text, i: nat, d: Dialect): (r: Result<nat>)
    ensures r.Ok? ==> i < r.value <= |s|
  {
    if StartsWith(s, i, TRUE) then Ok(i + 4)
    else if StartsWith(s, i, FALSE) then Ok(i + 5)
    else if StartsWith(s, i, NULL) then Ok(i + 4)
    else if d == Lenient && StartsWith(s, i, NAN) then Ok(i + 3)
    else if d == Lenient && StartsWith(s, i, INFINITY) then Ok(i + 8)
    else Err(SurgicalError)
  }

  /** The end of the scalar token at `i`. */
  function ParseScalar(s: Text, i: nat, d: Dialect): (r: Result<nat>)
    requires i < |s|
    ensures r.Ok? ==> i < r.value <= |s|
  {
    if s[i] == QUOTE then ParseString(s, i)
    else if d == Lenient && StartsWith(s, i, NEGATIVE_INFINITY) then Ok(i + |NEGATIVE_INFINITY|)
    else if s[i] == MINUS || IsDigit(s[i]) then ParseNumber(s, i)
    else ParseLiteral(s, i, d)
  }

  function ParseLeaf(s: Text, i: nat, d: Dialect): (r: Result<Node>)
    requires i < |s|
    ensures r.Ok? ==> r.value.Leaf? && i == r.value.start < r.value.end <= |s|
  {
    match ParseScalar(s, i, d)
    case Err(e) => Err(e)
    case Ok(end) =>
      match TokenValue(s[i..end], d)
      case None => Err(ValueError)
      case Some(v) => Ok(Leaf(i, end, v))
  }

  function ParseValue(s: Text, i: nat, d: Dialect): (r: Result<Node>)
    requires i <= |s|
    ensures r.Ok? ==> r.value.start == WsEnd(s, i) < r.value.end <= |s|
    decreases |s| - i, 0
  {
    var start := WsEnd(s, i);
    if start == |s| then Err(SurgicalError)
    else if s[start] == LBRACE then
      match ParsePairs(s, start + 1, d)
      case Err(e) => Err(e)
      case Ok(p) => Ok(Object(start, p.end, p.pairs))
    else if s[start] == LBRACKET then
      match ParseItems(s, start + 1, d)
      case Err(e) => Err(e)
      case Ok(p) => Ok(Array(start, p.end, p.items))
    else ParseLeaf(s, start, d)
  }

  /** After `[`: either the closing bracket or a first element. */
  function ParseItems(s: Text, i: nat, d: Dialect): (r: Result<ParsedItems>)
    requires i <= |s|
    ensures r.Ok? ==> i < r.value.end <= |s|
    decreases |s| - i, 2
  {
    var j := WsEnd(s, i);
    if j < |s| && s[j] == RBRACKET then Ok(ParsedItems(NoItems, j + 1)) else ParseItem(s, i, d)
  }

  /** An element, its separator, and the elements after it. */
  function ParseItem(s: Text, i: nat, d: Dialect): (r: Result<ParsedItems>)
    requires i <= |s|
    ensures r.Ok? ==> i < r.value.end <= |s| && r.value.items.Items?
    decreases |s| - i, 1
  {
    match ParseValue(s, i, d)
    case Err(e) => Err(e)
    case Ok(child) =>
      var k := WsEnd(s, child.end);
      if k == |s| then Err(SurgicalError)
      else if s[k] == COMMA then
        match ParseItem(s, k + 1, d)
        case Err(e) => Err(e)
        case Ok(rest) => Ok(ParsedItems(Items(child, rest.items), rest.end))
      else if s[k] == RBRACKET then Ok(ParsedItems(Items(child, NoItems), k + 1))
      else Err(SurgicalError)
  }

  function ParsePairs(s: Text, i: nat, d: Dialect): (r: Result<ParsedPairs>)
    requires i <= |s|
    ensures r.Ok? ==> i < r.value.end <= |s|
    decreases |s| - i, 2
  {
    var j := WsEnd(s, i);
    if j < |s| && s[j] == RBRACE then Ok(ParsedPairs(NoPairs, j + 1)) else ParsePair(s, i, d)
  }

  /** A key token with its colon: where the token starts and ends, and where the value may start. */
  datatype KeySpan = KeySpan(start: nat, end: nat, valueFrom: nat)

  function ParseKey(s: Text, i: nat): (r: Result<KeySpan>)
    requires i <= |s|
    ensures r.Ok? ==> i <= r.value.start < r.value.end < r.value.valueFrom <= |s|
  {
    var j := WsEnd(s, i);
    if j == |s| || s[j] != QUOTE then Err(SurgicalError)
    else
      match ParseString(s, j)
      case Err(e) => Err(e)
      case Ok(keyEnd) =>
        var c := WsEnd(s, keyEnd);
        if c == |s| || s[c] != COLON then Err(SurgicalError) else Ok(KeySpan(j, keyEnd, c + 1))
  }

  function KeyText(s: Text, k: KeySpan): Text
    requires k.start <= k.end <= |s|
  {
    match StringToken(s[k.start..k.end]) case Some(t) => t case None => []
  }

  function ParsePair(s: Text, i: nat, d: Dialect): (r: Result<ParsedPairs>)
    requires i <= |s|
    ensures r.Ok? ==> i < r.value.end <= |s| && r.value.pairs.Pairs?
    decreases |s| - i, 1
  {
    match ParseKey(s, i)
    case Err(e) => Err(e)
    case Ok(key) =>
      match ParseValue(s, key.valueFrom, d)
      case Err(e) => Err(e)
      case Ok(child) =>
        var k := WsEnd(s, child.end);
        if k == |s| then Err(SurgicalError)
        else if s[k] == COMMA then
          match ParsePair(s, k + 1, d)
          case Err(e) => Err(e)
          case Ok(rest) =>
            Ok(ParsedPairs(Pairs(KeyText(s, key), key.start, key.end, child, rest.pairs), rest.end))
        else if s[k] == RBRACE then
          Ok(ParsedPairs(Pairs(KeyText(s, key), key.start, key.end, child, NoPairs), k + 1))
        else Err(SurgicalError)
  }

  function ParseDocument(s: Text, d: Dialect): (r: Result<Node>)
    ensures r.Ok? ==> r.value.end <= |s|
  {
    match ParseValue(s, 0, d)
    case Err(e) => Err(e)
    case Ok(root) => if WsEnd(s, root.end) == |s| then Ok(root) else Err(SurgicalError)
  }

  // ---- Soundness -------------------------------------------------------------------------------

  lemma ParseStringSound(s: Text, i: nat)
    requires i < |s| && s[i] == QUOTE && ParseString(s, i).Ok?
    ensures StringToken(s[i..ParseString(s, i).value]).Some?
  {
    hide Decode, StringEnd;
    var e := ParseString(s, i).value;
    assert s[i..e][1..|s[i..e]| - 1] == s[i + 1..e - 1];
  }

  lemma ParseKeySound(s: Text, i: nat)
    requires i <= |s| && ParseKey(s, i).Ok?
    ensures var k := ParseKey(s, i).value;
            DerivesKey(s, KeyText(s, k), k.start, k.end, i, WsEnd(s, k.valueFrom))
  {
    ParseStringSound(s, ParseKey(s, i).value.start);
  }

  lemma {:induction false} ParseValueSound(s: Text, i: nat, d: Dialect, n: Node)
    requires i <= |s| && ParseValue(s, i, d) == Ok(n)
    ensures Derives(s, n, d)
    decreases |s| - i, 0
  {
    hide TokenValue, ParseScalar, ParseItems, ParsePairs, DerivesItems, DerivesPairs;
    match n
    case Leaf(_, _, _) =>
    case Array(start, end, items) => ParseItemsSound(s, start + 1, d, ParsedItems(items, end));
    case Object(start, end, pairs) => ParsePairsSound(s, start + 1, d, ParsedPairs(pairs, end));
  }

  lemma {:induction false} ParseItemsSound(s: Text, i: nat, d: Dialect, p: ParsedItems)
    requires i <= |s| && ParseItems(s, i, d) == Ok(p)
    ensures s[p.end - 1] == RBRACKET && DerivesItems(s, p.items, i, p.end - 1, d)
    decreases |s| - i, 2
  {
    var j := WsEnd(s, i);
    if !(j < |s| && s[j] == RBRACKET) {
      ParseItemSound(s, i, d, p);
    }
  }

  lemma {:induction false} ParseItemSound(s: Text, i: nat, d: Dialect, p: ParsedItems)
    requires i <= |s| && ParseItem(s, i, d) == Ok(p)
    ensures s[p.end - 1] == RBRACKET && DerivesItems(s, p.items, i, p.end - 1, d)
    decreases |s| - i, 1
  {
    hide ParseValue, Derives, KeyText, DerivesKey, ParseKey;
    var child := p.items.head;
    ParseValueSound(s, i, d, child);
    var k := WsEnd(s, child.end);
    if s[k] == COMMA {
      ParseItemSound(s, k + 1, d, ParsedItems(p.items.tail, p.end));
    }
  }

  lemma {:induction false} ParsePairsSound(s: Text, i: nat, d: Dialect, p: ParsedPairs)
    requires i <= |s| && ParsePairs(s, i, d) == Ok(p)
    ensures s[p.end - 1] == RBRACE && DerivesPairs(s, p.pairs, i, p.end - 1, d)
    decreases |s| - i, 2
  {
    var j := WsEnd(s, i);
    if !(j < |s| && s[j] == RBRACE) {
      ParsePairSound(s, i, d, p);
    }
  }

  lemma {:induction false} ParsePairSound(s: Text, i: nat, d: Dialect, p: ParsedPairs)
    requires i <= |s| && ParsePair(s, i, d) == Ok(p)
    ensures s[p.end - 1] == RBRACE && DerivesPairs(s, p.pairs, i, p.end - 1, d)
    decreases |s| - i, 1
  {
    hide ParseValue, Derives, KeyText, DerivesKey, ParseKey, WsEnd;
    var child := p.pairs.child;
    ParseKeySound(s, i);
    ParseValueSound(s, ParseKey(s, i).value.valueFrom, d, child);
    var k := WsEnd(s, child.end);
    if s[k] == COMMA {
      ParsePairSound(s, k + 1, d, ParsedPairs(p.pairs.tail, p.end));
    }
  }

  // ---- Completeness ----------------------------------------------------------------------------

  /** What may follow a value: the end of the text, whitespace, or a structural character. */
  predicate Delimited(s: Text, i: nat) {
    i >= |s| || IsWs(s[i]) || s[i] == COMMA || s[i] == RBRACKET || s[i] == RBRACE
  }

  lemma DelimitedBefore(s: Text, i: nat)
    requires i <= |s| && Delimited(s, WsEnd(s, i))
    ensures Delimited(s, i)
  {
  }

  lemma {:induction false} NumEndAt(s: Text, i: nat, j: nat)
    requires i <= j <= |s| && forall k :: i <= k < j ==> IsNumChar(s[k])
    requires j < |s| ==> !IsNumChar(s[j])
    ensures NumEnd(s, i) == j
    decreases j - i
  {
    if i < j {
      NumEndAt(s, i + 1, j);
    }
  }

  lemma ParseStringComplete(s: Text, i: nat, j: nat)
    requires i <= j <= |s| && StringToken(s[i..j]).Some?
    ensures i < |s| && s[i] == QUOTE && ParseString(s, i) == Ok(j)
  {
    hide Decode, StringEnd;
    var body := s[i + 1..j - 1];
    SliceOfSlice(s, i, j, 1, j - i - 1);
    assert s[i] == s[i..j][0] && s[j - 1] == s[i..j][j - i - 1];
    assert s[i + 1..i + 1 + |body + [QUOTE]|] == body + [QUOTE];
    AtIsSlice(s, i + 1, body + [QUOTE]);
    StringEndAt(s, i + 1, body);
  }

  lemma ParseNumberComplete(s: Text, i: nat, j: nat)
    requires i < j <= |s| && NumberValue(s[i..j]).Some? && Delimited(s, j)
    ensures ParseNumber(s, i) == Ok(j)
  {
    forall k | i <= k < j ensures IsNumChar(s[k]) {
      assert s[k] == s[i..j][k - i];
    }
    NumEndAt(s, i, j);
  }

  lemma HeadOf(s: Text, i: nat, t: Text)
    requires t != []
    ensures StartsWith(s, i, t) ==> s[i] == t[0]
  {
    if StartsWith(s, i, t) {
      assert s[i..i + |t|][0] == s[i];
    }
  }

  lemma ConstantComplete(s: Text, i: nat, j: nat, d: Dialect)
    requires i < j <= |s| && IsConstant(s[i..j], d)
    ensures ParseScalar(s, i, d) == Ok(j)
  {
    HeadOf(s, i, s[i..j]);
    HeadOf(s, i, TRUE);
    HeadOf(s, i, FALSE);
    HeadOf(s, i, NULL);
    HeadOf(s, i, NAN);
    HeadOf(s, i, INFINITY);
    HeadOf(s, i, NEGATIVE_INFINITY);
  }

  lemma ParseLeafComplete(s: Text, i: nat, j: nat, d: Dialect)
    requires i < j <= |s| && TokenValue(s[i..j], d).Some? && Delimited(s, j)
    ensures ParseLeaf(s, i, d) == Ok(Leaf(i, j, TokenValue(s[i..j], d).value))
    ensures !IsWs(s[i]) && s[i] != LBRACE && s[i] != LBRACKET && s[i] != RBRACKET
  {
    assert s[i] == s[i..j][0];
    if s[i] == QUOTE {
      ParseStringComplete(s, i, j);
    } else if IsConstant(s[i..j], d) {
      ConstantComplete(s, i, j, d);
    } else {
      ParseNumberComplete(s, i, j);
      SecondOf(s, i, NEGATIVE_INFINITY);
      MinusDigit(s[i..j]);
      assert j > i + 1 ==> s[i..j][1] == s[i + 1];
    }
  }

  lemma SecondOf(s: Text, i: nat, t: Text)
    ensures StartsWith(s, i, t) && |t| > 1 ==> s[i + 1] == t[1]
  {
    if StartsWith(s, i, t) && |t| > 1 {
      assert s[i..i + |t|][1] == s[i + 1];
    }
  }

  lemma MinusDigit(t: Text)
    requires NumberValue(t).Some?
    ensures t[0] == MINUS ==> |t| > 1 && IsDigit(t[1])
  {
  }

  lemma ParseKeyComplete(s: Text, key: Text, keyStart: nat, keyEnd: nat, i: nat, childStart: nat)
    requires i <= |s| && DerivesKey(s, key, keyStart, keyEnd, i, childStart)
    ensures keyStart == WsEnd(s, i) && keyEnd <= |s|
    ensures WsEnd(s, keyEnd) < |s| && childStart == WsEnd(s, WsEnd(s, keyEnd) + 1)
    ensures s[keyStart] == QUOTE && ParseKey(s, i) == Ok(KeySpan(keyStart, keyEnd, WsEnd(s, keyEnd) + 1))
    ensures KeyText(s, KeySpan(keyStart, keyEnd, WsEnd(s, keyEnd) + 1)) == key
  {
    ParseStringComplete(s, keyStart, keyEnd);
  }

  lemma {:induction false} ParseValueComplete(s: Text, i: nat, n: Node, d: Dialect)
    requires i <= |s| && n.start == WsEnd(s, i) && Derives(s, n, d) && Delimited(s, n.end)
    ensures ParseValue(s, i, d) == Ok(n)
    decreases n
  {
    hide TokenValue, ParseLeaf, ParseItems, ParsePairs, DerivesItems, DerivesPairs;
    match n
    case Leaf(start, end, _) => ParseLeafComplete(s, start, end, d);
    case Array(start, end, items) => ParseItemsComplete(s, start + 1, items, end - 1, d);
    case Object(start, end, pairs) => ParsePairsComplete(s, start + 1, pairs, end - 1, d);
  }

  lemma {:induction false} ParseItemsComplete(s: Text, i: nat, items: Items, j: nat, d: Dialect)
    requires i <= j < |s| && s[j] == RBRACKET && DerivesItems(s, items, i, j, d)
    ensures ParseItems(s, i, d) == Ok(ParsedItems(items, j + 1))
    decreases items
  {
    if items.Items? {
      ParseItemComplete(s, i, items, j, d);
    }
  }

  /** The first character of a value is neither blank nor a closing bracket. */
  lemma ValueHead(s: Text, n: Node, d: Dialect)
    requires Derives(s, n, d)
    ensures s[n.start] != RBRACKET && s[n.start] != RBRACE && s[n.start] != COMMA
  {
    if n.Leaf? {
      assert s[n.start] == s[n.start..n.end][0];
    }
  }

  lemma {:induction false} ParseItemComplete(s: Text, i: nat, items: Items, j: nat, d: Dialect)
    requires i <= j < |s| && s[j] == RBRACKET && items.Items? && DerivesItems(s, items, i, j, d)
    ensures ParseItem(s, i, d) == Ok(ParsedItems(items, j + 1))
    ensures ParseItems(s, i, d) == ParseItem(s, i, d)
    decreases items, 0
  {
    hide ParseValue, Derives, KeyText, DerivesKey, ParseKey;
    var next := WsEnd(s, items.head.end);
    ValueHead(s, items.head, d);
    ParseValueComplete(s, i, items.head, d);
    if items.tail.Items? {
      ParseItemComplete(s, next + 1, items.tail, j, d);
    }
  }

  lemma {:induction false} ParsePairsComplete(s: Text, i: nat, pairs: Pairs, j: nat, d: Dialect)
    requires i <= j < |s| && s[j] == RBRACE && DerivesPairs(s, pairs, i, j, d)
    ensures ParsePairs(s, i, d) == Ok(ParsedPairs(pairs, j + 1))
    decreases pairs
  {
    if pairs.Pairs? {
      ParsePairComplete(s, i, pairs, j, d);
    }
  }

  lemma {:induction false} ParsePairComplete(s: Text, i: nat, pairs: Pairs, j: nat, d: Dialect)
    requires i <= j < |s| && s[j] == RBRACE && pairs.Pairs? && DerivesPairs(s, pairs, i, j, d)
    ensures ParsePair(s, i, d) == Ok(ParsedPairs(pairs, j + 1))
    ensures ParsePairs(s, i, d) == ParsePair(s, i, d)
    decreases pairs, 0
  {
    hide ParseValue, Derives, KeyText, ParseKey, DerivesKey, StringToken, WsEnd;
    var next := WsEnd(s, pairs.child.end);
    DelimitedBefore(s, pairs.child.end);
    ParseKeyComplete(s, pairs.key, pairs.keyStart, pairs.keyEnd, i, pairs.child.start);
    ParseValueComplete(s, WsEnd(s, pairs.keyEnd) + 1, pairs.child, d);
    if pairs.tail.Pairs? {
      ParsePairComplete(s, next + 1, pairs.tail, j, d);
    }
  }

  /** The parser and the grammar agree: it returns exactly the one tree the text derives, or refuses. */
  lemma ParserIsExact(s: Text, root: Node, d: Dialect)
    ensures ParseDocument(s, d) == Ok(root) <==> DerivesDocument(s, root, d)
  {
    if ParseDocument(s, d) == Ok(root) {
      ParseValueSound(s, 0, d, root);
    }
    if DerivesDocument(s, root, d) {
      ParseValueComplete(s, 0, root, d);
    }
  }
}
