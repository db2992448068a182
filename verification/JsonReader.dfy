/**
 The parser as the source runs it: loops that advance an index and append children.
 Every method computes exactly what the parsing functions of `JsonParser` say, errors included.
 */
module JsonReader {
  import opened Text
  import opened JsonStrings
  import opened JsonNumbers
  import opened JsonGrammar
  import opened JsonParser

  // ---- Lists built at the end ------------------------------------------------------------------

  function AppendItem(items: Items, n: Node): Items {
    match items
    case NoItems => Items(n, NoItems)
    case Items(head, tail) => Items(head, AppendItem(tail, n))
  }

  function JoinItems(left: Items, right: Items): Items {
    match left
    case NoItems => right
    case Items(head, tail) => Items(head, JoinItems(tail, right))
  }

  lemma AppendThenJoinItems(left: Items, n: Node, right: Items)
    ensures JoinItems(AppendItem(left, n), right) == JoinItems(left, Items(n, right))
    ensures AppendItem(left, n) == JoinItems(left, Items(n, NoItems))
  {
  }

  function AppendPair(pairs: Pairs, key: Text, keyStart: nat, keyEnd: nat, n: Node): Pairs {
    match pairs
    case NoPairs => Pairs(key, keyStart, keyEnd, n, NoPairs)
    case Pairs(k, a, b, child, tail) => Pairs(k, a, b, child, AppendPair(tail, key, keyStart, keyEnd, n))
  }

  function JoinPairLists(left: Pairs, right: Pairs): Pairs {
    match left
    case NoPairs => right
    case Pairs(k, a, b, child, tail) => Pairs(k, a, b, child, JoinPairLists(tail, right))
  }

  lemma AppendThenJoinPairs(left: Pairs, key: Text, a: nat, b: nat, n: Node, right: Pairs)
    ensures JoinPairLists(AppendPair(left, key, a, b, n), right) == JoinPairLists(left, Pairs(key, a, b, n, right))
    ensures AppendPair(left, key, a, b, n) == JoinPairLists(left, Pairs(key, a, b, n, NoPairs))
  {
  }

  /** What is left to parse, appended to what was parsed already. */
  function AfterItems(done: Items, r: Result<ParsedItems>): Result<ParsedItems> {
    match r
    case Err(e) => Err(e)
    case Ok(p) => Ok(ParsedItems(JoinItems(done, p.items), p.end))
  }

  function AfterPairs(done: Pairs, r: Result<ParsedPairs>): Result<ParsedPairs> {
    match r
    case Err(e) => Err(e)
    case Ok(p) => Ok(ParsedPairs(JoinPairLists(done, p.pairs), p.end))
  }

  lemma WsEndTwice(s: Text, i: nat)
    requires i <= |s|
    ensures WsEnd(s, WsEnd(s, i)) == WsEnd(s, i)
  {
  }

  lemma SkippedValue(s: Text, i: nat)
    requires i <= |s|
    ensures ParseValue(s, WsEnd(s, i), Strict) == ParseValue(s, i, Strict)
  {
    hide WsEnd, ParseLeaf, ParseItems, ParsePairs;
    WsEndTwice(s, i);
  }

  lemma SkippedItem(s: Text, i: nat)
    requires i <= |s|
    ensures ParseItem(s, WsEnd(s, i), Strict) == ParseItem(s, i, Strict)
  {
    hide WsEnd, ParseValue;
    SkippedValue(s, i);
  }

  lemma SkippedPair(s: Text, i: nat)
    requires i <= |s|
    ensures ParsePair(s, WsEnd(s, i), Strict) == ParsePair(s, i, Strict)
  {
    hide WsEnd, ParseValue, ParseKey, KeyText;
    SkippedKey(s, i);
  }

  lemma SkippedKey(s: Text, i: nat)
    requires i <= |s|
    ensures ParseKey(s, WsEnd(s, i)) == ParseKey(s, i)
  {
    hide WsEnd, ParseString;
    WsEndTwice(s, i);
  }

  /** One turn of the array loop. */
  lemma ItemStep(s: Text, i: nat, done: Items)
    requires i <= |s|
    ensures var r := AfterItems(done, ParseItem(s, i, Strict));
            match ParseValue(s, i, Strict)
            case Err(e) => r == Err(e)
            case Ok(child) =>
              var k := WsEnd(s, child.end);
              if k < |s| && s[k] == COMMA then
                r == AfterItems(AppendItem(done, child), ParseItem(s, k + 1, Strict))
              else if k < |s| && s[k] == RBRACKET then
                r == Ok(ParsedItems(AppendItem(done, child), k + 1))
              else r == Err(SurgicalError)
  {
    hide WsEnd, ParseValue;
    var value := ParseValue(s, i, Strict);
    if value.Ok? {
      var k := WsEnd(s, value.value.end);
      if k < |s| && s[k] == COMMA {
        var rest := ParseItem(s, k + 1, Strict);
        AppendThenJoinItems(done, value.value, if rest.Ok? then rest.value.items else NoItems);
      } else {
        AppendThenJoinItems(done, value.value, NoItems);
      }
    }
  }

  /** One turn of the object loop, once the key and its colon are read. */
  lemma PairStep(s: Text, i: nat, done: Pairs)
    requires i <= |s|
    ensures var r := AfterPairs(done, ParsePair(s, i, Strict));
            match ParseKey(s, i)
            case Err(e) => r == Err(e)
            case Ok(key) =>
              match ParseValue(s, key.valueFrom, Strict)
              case Err(e) => r == Err(e)
              case Ok(child) =>
                var k := WsEnd(s, child.end);
                var now := AppendPair(done, KeyText(s, key), key.start, key.end, child);
                if k < |s| && s[k] == COMMA then r == AfterPairs(now, ParsePair(s, k + 1, Strict))
                else if k < |s| && s[k] == RBRACE then r == Ok(ParsedPairs(now, k + 1))
                else r == Err(SurgicalError)
  {
    hide WsEnd, ParseValue, ParseKey, KeyText;
    var key := ParseKey(s, i);
    if key.Ok? {
      var value := ParseValue(s, key.value.valueFrom, Strict);
      if value.Ok? {
        var k := WsEnd(s, value.value.end);
        var text := KeyText(s, key.value);
        if k < |s| && s[k] == COMMA {
          var rest := ParsePair(s, k + 1, Strict);
          AppendThenJoinPairs(done, text, key.value.start, key.value.end, value.value,
                              if rest.Ok? then rest.value.pairs else NoPairs);
        } else {
          AppendThenJoinPairs(done, text, key.value.start, key.value.end, value.value, NoPairs);
        }
      }
    }
  }

  function ArrayFrom(start: nat, r: Result<ParsedItems>): Result<Node> {
    match r
    case Err(e) => Err(e)
    case Ok(p) => Ok(Array(start, p.end, p.items))
  }

  function ObjectFrom(start: nat, r: Result<ParsedPairs>): Result<Node> {
    match r
    case Err(e) => Err(e)
    case Ok(p) => Ok(Object(start, p.end, p.pairs))
  }

  // ---- The readers -------------------------------------------------------------------------------

  method ReadString(s: Text, i: nat) returns (r: Result<nat>)
    requires i < |s| && s[i] == QUOTE
    ensures r == ParseString(s, i)
  {
    var j := i + 1;
    while j < |s| && s[j] != QUOTE
      invariant StringEnd(s, i + 1) == StringEnd(s, j)
      invariant i < j
      decreases |s| - j
    {
      j := if s[j] == BACKSLASH then j + 2 else j + 1;
    }
    if j >= |s| {
      return Err(SurgicalError);
    }
    if Decode(s[i + 1..j]).None? {
      return Err(ValueError);
    }
    return Ok(j + 1);
  }

  method ReadNumber(s: Text, i: nat) returns (r: Result<nat>)
    requires i < |s|
    ensures r == ParseNumber(s, i)
  {
    var j := i;
    while j < |s| && IsNumChar(s[j])
      invariant i <= j <= |s| && NumEnd(s, i) == NumEnd(s, j)
    {
      j := j + 1;
    }
    if NumberValue(s[i..j]).None? {
      return Err(ValueError);
    }
    return Ok(j);
  }

  method ReadLiteral(s: Text, i: nat) returns (r: Result<nat>)
    ensures r == ParseLiteral(s, i, Strict)
  {
    hide StartsWith;
    var literals := [TRUE, FALSE, NULL];
    assert |TRUE| == 4 && |FALSE| == 5 && |NULL| == 4;
    var k := 0;
    while k < |literals|
      invariant k <= |literals|
      invariant forall m :: 0 <= m < k ==> !StartsWith(s, i, literals[m])
    {
      if StartsWith(s, i, literals[k]) {
        return Ok(i + |literals[k]|);
      }
      k := k + 1;
    }
    assert literals[0] == TRUE && literals[1] == FALSE && literals[2] == NULL;
    return Err(SurgicalError);
  }

  method ReadLeaf(s: Text, i: nat) returns (r: Result<Node>)
    requires i < |s|
    ensures r == ParseLeaf(s, i, Strict)
  {
    var end: Result<nat>;
    if s[i] == QUOTE {
      end := ReadString(s, i);
    } else if s[i] == MINUS || IsDigit(s[i]) {
      end := ReadNumber(s, i);
    } else {
      end := ReadLiteral(s, i);
    }
    if end.Err? {
      return Err(end.error);
    }
    var v := TokenValue(s[i..end.value], Strict);
    if v.None? {
      return Err(ValueError);
    }
    return Ok(Leaf(i, end.value, v.value));
  }

  method ReadValue(s: Text, i: nat) returns (r: Result<Node>)
    requires i <= |s|
    ensures r == ParseValue(s, i, Strict)
    decreases |s| - i, 2
  {
    hide ParseLeaf, ParseItem, ParsePair;
    var start := SkipWs(s, i);
    if start == |s| {
      r := Err(SurgicalError);
    } else if s[start] == LBRACE {
      r := ReadObject(s, start);
    } else if s[start] == LBRACKET {
      r := ReadArray(s, start);
    } else {
      r := ReadLeaf(s, start);
    }
  }

  method ReadArray(s: Text, start: nat) returns (r: Result<Node>)
    requires start < |s| && s[start] == LBRACKET
    ensures r == ArrayFrom(start, ParseItems(s, start + 1, Strict))
    decreases |s| - start, 1
  {
    hide ParseItem, WsEnd;
    var i := SkipWs(s, start + 1);
    if i < |s| && s[i] == RBRACKET {
      return Ok(Array(start, i + 1, NoItems));
    }
    var items := NoItems;
    SkippedItem(s, start + 1);
    while true
      invariant start < i <= |s|
      invariant ParseItems(s, start + 1, Strict) == AfterItems(items, ParseItem(s, i, Strict))
      decreases |s| - i
    {
      ItemStep(s, i, items);
      var child := ReadValue(s, i);
      if child.Err? {
        return Err(child.error);
      }
      items := AppendItem(items, child.value);
      var k := SkipWs(s, child.value.end);
      if k < |s| && s[k] == COMMA {
        i := SkipWs(s, k + 1);
        SkippedItem(s, k + 1);
      } else if k < |s| && s[k] == RBRACKET {
        return Ok(Array(start, k + 1, items));
      } else {
        return Err(SurgicalError);
      }
    }
  }

  /** The member key at `i` with its colon. */
  method ReadKey(s: Text, i: nat) returns (r: Result<KeySpan>)
    requires i <= |s|
    ensures r == ParseKey(s, i)
  {
    var j := SkipWs(s, i);
    if j == |s| || s[j] != QUOTE {
      return Err(SurgicalError);
    }
    var keyEnd := ReadString(s, j);
    if keyEnd.Err? {
      return Err(keyEnd.error);
    }
    var colon := SkipWs(s, keyEnd.value);
    if colon == |s| || s[colon] != COLON {
      return Err(SurgicalError);
    }
    return Ok(KeySpan(j, keyEnd.value, colon + 1));
  }

  method ReadObject(s: Text, start: nat) returns (r: Result<Node>)
    requires start < |s| && s[start] == LBRACE
    ensures r == ObjectFrom(start, ParsePairs(s, start + 1, Strict))
    decreases |s| - start, 1
  {
    hide ParsePair, ParseValue, ParseKey, KeyText, WsEnd;
    var i := SkipWs(s, start + 1);
    if i < |s| && s[i] == RBRACE {
      return Ok(Object(start, i + 1, NoPairs));
    }
    var pairs := NoPairs;
    SkippedPair(s, start + 1);
    while true
      invariant start < i <= |s|
      invariant ParsePairs(s, start + 1, Strict) == AfterPairs(pairs, ParsePair(s, i, Strict))
      decreases |s| - i
    {
      PairStep(s, i, pairs);
      var key := ReadKey(s, i);
      if key.Err? {
        return Err(key.error);
      }
      var child := ReadValue(s, key.value.valueFrom);
      if child.Err? {
        return Err(child.error);
      }
      pairs := AppendPair(pairs, KeyText(s, key.value), key.value.start, key.value.end, child.value);
      var k := SkipWs(s, child.value.end);
      if k < |s| && s[k] == COMMA {
        i := k + 1;
      } else if k < |s| && s[k] == RBRACE {
        return Ok(Object(start, k + 1, pairs));
      } else {
        return Err(SurgicalError);
      }
    }
  }

  /** `parse`: the whole text is one value, or the reader refuses. */
  method Read(raw: Text) returns (r: Result<Node>)
    ensures r == ParseDocument(raw, Strict)
    ensures forall root :: r == Ok(root) <==> DerivesDocument(raw, root, Strict)
  {
    forall root {
      ParserIsExact(raw, root, Strict);
    }
    var root := ReadValue(raw, 0);
    if root.Err? {
      return root;
    }
    var tail := SkipWs(raw, root.value.end);
    if tail != |raw| {
      return Err(SurgicalError);
    }
    return root;
  }
}
