/** Which exception `parse` raises: `ValueError` exactly when it gets stuck at a token that cannot be decoded. */
module JsonRefusals {
  import opened Text
  import opened JsonGrammar
  import opened JsonNumbers
  import opened JsonParser
  import opened JsonStrings

  /** The way to such a token, through elements and members whose predecessors are all well-formed. */
  datatype Stuck =
    | AtToken(start: nat)
    | InArray(start: nat, before: Items, element: Stuck)
    | InObject(start: nat, pairs: Pairs, member: StuckMember)

  datatype StuckMember = AtKey(token: nat) | AtChild(key: Text, keyStart: nat, keyEnd: nat, child: Stuck)

  /** A closed string that does not decode, or a run of number characters that is no number. */
  predicate Undecodable(s: Text, i: nat) {
    i < |s| && (UndecodableString(s, i) ||
                ((s[i] == MINUS || IsDigit(s[i])) && NumberValue(s[i..NumEnd(s, i)]).None?))
  }

  predicate UndecodableString(s: Text, i: nat)
    requires i < |s|
  {
    s[i] == QUOTE && StringEnd(s, i + 1).Some? && Decode(s[i + 1..StringEnd(s, i + 1).value - 1]).None?
  }

  /** From `i`: these elements, each with a comma after it, up to `j`. */
  predicate ItemsBefore(s: Text, items: Items, i: nat, j: nat)
    requires i <= |s|
  {
    match items
    case NoItems => i == j
    case Items(head, tail) =>
      && head.start == WsEnd(s, i) && Derives(s, head, Strict)
      && WsEnd(s, head.end) < |s| && s[WsEnd(s, head.end)] == COMMA
      && ItemsBefore(s, tail, WsEnd(s, head.end) + 1, j)
  }

  predicate PairsBefore(s: Text, pairs: Pairs, i: nat, j: nat)
    requires i <= |s|
  {
    match pairs
    case NoPairs => i == j
    case Pairs(key, keyStart, keyEnd, child, tail) =>
      && DerivesKey(s, key, keyStart, keyEnd, i, child.start) && Derives(s, child, Strict)
      && WsEnd(s, child.end) < |s| && s[WsEnd(s, child.end)] == COMMA
      && PairsBefore(s, tail, WsEnd(s, child.end) + 1, j)
  }

  ghost predicate StuckAt(s: Text, k: Stuck)
    decreases k
  {
    match k
    case AtToken(start) => Undecodable(s, start)
    case InArray(start, before, element) =>
      && start < |s| && s[start] == LBRACKET && StuckAt(s, element)
      && exists j: nat :: j <= |s| && ItemsBefore(s, before, start + 1, j) && WsEnd(s, j) == element.start
    case InObject(start, pairs, member) =>
      && start < |s| && s[start] == LBRACE
      && exists j: nat :: j <= |s| && PairsBefore(s, pairs, start + 1, j) && StuckMemberAt(s, member, j)
  }

  ghost predicate StuckMemberAt(s: Text, m: StuckMember, j: nat)
    requires j <= |s|
    decreases m
  {
    match m
    case AtKey(token) => token == WsEnd(s, j) && token < |s| && UndecodableString(s, token)
    case AtChild(key, keyStart, keyEnd, child) =>
      DerivesKey(s, key, keyStart, keyEnd, j, child.start) && StuckAt(s, child)
  }

  // ---- Stuck, hence ValueError --------------------------------------------------------------------------

  lemma StuckHead(s: Text, k: Stuck)
    requires StuckAt(s, k)
    ensures k.start < |s| && !IsWs(s[k.start])
    ensures s[k.start] != RBRACKET && s[k.start] != RBRACE && s[k.start] != COMMA
  {
  }

  lemma TokenRaises(s: Text, i: nat)
    requires Undecodable(s, i)
    ensures i < |s| && ParseLeaf(s, i, Strict) == Err(ValueError) && s[i] != LBRACE && s[i] != LBRACKET
  {
    hide Decode, StringEnd, NumEnd;
  }

  lemma {:induction false} StuckRaises(s: Text, i: nat, k: Stuck)
    requires i <= |s| && WsEnd(s, i) == k.start && StuckAt(s, k)
    ensures ParseValue(s, i, Strict) == Err(ValueError)
    decreases k
  {
    hide WsEnd, Derives, DerivesKey, ParseItems, ParsePairs, ParseItem, ParsePair, ParseLeaf, Undecodable;
    match k
    case AtToken(start) => TokenRaises(s, start);
    case InArray(start, before, element) =>
      var j: nat :| j <= |s| && ItemsBefore(s, before, start + 1, j) && WsEnd(s, j) == element.start;
      StuckRaises(s, j, element);
      StuckHead(s, element);
      ItemsRaise(s, start + 1, before, j);
    case InObject(start, pairs, member) =>
      var j: nat :| j <= |s| && PairsBefore(s, pairs, start + 1, j) && StuckMemberAt(s, member, j);
      MemberRaises(s, j, member);
      PairsRaise(s, start + 1, pairs, j);
  }

  lemma {:induction false} MemberRaises(s: Text, j: nat, m: StuckMember)
    requires j <= |s| && StuckMemberAt(s, m, j)
    ensures ParsePair(s, j, Strict) == Err(ValueError) && WsEnd(s, j) < |s| && s[WsEnd(s, j)] == QUOTE
    decreases m
  {
    hide WsEnd, Derives, DerivesKey, ParseValue, Decode, StringEnd;
    match m
    case AtKey(_) =>
    case AtChild(key, keyStart, keyEnd, child) =>
      ParseKeyComplete(s, key, keyStart, keyEnd, j, child.start);
      StuckRaises(s, WsEnd(s, keyEnd) + 1, child);
  }

  lemma {:induction false} ItemsRaise(s: Text, i: nat, before: Items, j: nat)
    requires i <= |s| && j <= |s| && ItemsBefore(s, before, i, j) && ParseValue(s, j, Strict) == Err(ValueError)
    requires WsEnd(s, j) < |s| && s[WsEnd(s, j)] != RBRACKET
    ensures ParseItem(s, i, Strict) == Err(ValueError) && ParseItems(s, i, Strict) == Err(ValueError)
    decreases before
  {
    hide WsEnd, Derives, ParseValue;
    if before.Items? {
      var next := WsEnd(s, before.head.end);
      ValueHead(s, before.head, Strict);
      DelimitedBefore(s, before.head.end);
      ParseValueComplete(s, i, before.head, Strict);
      ItemsRaise(s, next + 1, before.tail, j);
    }
  }

  lemma {:induction false} PairsRaise(s: Text, i: nat, pairs: Pairs, j: nat)
    requires i <= |s| && j <= |s| && PairsBefore(s, pairs, i, j) && ParsePair(s, j, Strict) == Err(ValueError)
    requires WsEnd(s, j) < |s| && s[WsEnd(s, j)] == QUOTE
    ensures ParsePair(s, i, Strict) == Err(ValueError) && ParsePairs(s, i, Strict) == Err(ValueError)
    decreases pairs
  {
    hide WsEnd, Derives, ParseValue, DerivesKey, ParseKey, KeyText;
    if pairs.Pairs? {
      var next := WsEnd(s, pairs.child.end);
      DelimitedBefore(s, pairs.child.end);
      ParseKeyComplete(s, pairs.key, pairs.keyStart, pairs.keyEnd, i, pairs.child.start);
      ParseValueComplete(s, WsEnd(s, pairs.keyEnd) + 1, pairs.child, Strict);
      PairsRaise(s, next + 1, pairs.tail, j);
    }
  }

  // ---- ValueError, hence stuck --------------------------------------------------------------------------

  lemma {:induction false} RaisedIsStuck(s: Text, i: nat) returns (k: Stuck)
    requires i <= |s| && ParseValue(s, i, Strict) == Err(ValueError)
    ensures k.start == WsEnd(s, i) && StuckAt(s, k)
    decreases |s| - i, 0
  {
    hide WsEnd, Derives, DerivesKey, ParseItem, ParsePair, ParseLeaf;
    var start := WsEnd(s, i);
    if s[start] == LBRACE {
      var pairs, j, member := RaisedInPairs(s, start + 1);
      k := InObject(start, pairs, member);
    } else if s[start] == LBRACKET {
      var before, j, element := RaisedInItems(s, start + 1);
      k := InArray(start, before, element);
    } else {
      k := AtToken(start);
      LeafRaised(s, start);
    }
  }

  lemma {:induction false} RaisedInItems(s: Text, i: nat) returns (before: Items, j: nat, element: Stuck)
    requires i <= |s| && ParseItem(s, i, Strict) == Err(ValueError)
    ensures j <= |s| && ItemsBefore(s, before, i, j) && WsEnd(s, j) == element.start && StuckAt(s, element)
    decreases |s| - i, 1
  {
    hide WsEnd, Derives, ParseValue;
    var value := ParseValue(s, i, Strict);
    if value.Err? {
      before, j := NoItems, i;
      element := RaisedIsStuck(s, i);
    } else {
      ParseValueSound(s, i, Strict, value.value);
      before, j, element := RaisedInItems(s, WsEnd(s, value.value.end) + 1);
      before := Items(value.value, before);
    }
  }

  lemma {:induction false} RaisedInPairs(s: Text, i: nat) returns (pairs: Pairs, j: nat, member: StuckMember)
    requires i <= |s| && ParsePair(s, i, Strict) == Err(ValueError)
    ensures j <= |s| && PairsBefore(s, pairs, i, j) && StuckMemberAt(s, member, j)
    decreases |s| - i, 1
  {
    hide WsEnd, Derives, ParseValue, DerivesKey, Decode, StringEnd, KeyText, ParseKey;
    var key := ParseKey(s, i);
    if key.Err? {
      pairs, j, member := NoPairs, i, AtKey(WsEnd(s, i));
      KeyRaised(s, i);
    } else {
      ParseKeySound(s, i);
      var value := ParseValue(s, key.value.valueFrom, Strict);
      if value.Err? {
        var child := RaisedIsStuck(s, key.value.valueFrom);
        pairs, j, member := NoPairs, i, AtChild(KeyText(s, key.value), key.value.start, key.value.end, child);
      } else {
        ParseValueSound(s, key.value.valueFrom, Strict, value.value);
        pairs, j, member := RaisedInPairs(s, WsEnd(s, value.value.end) + 1);
        pairs := Pairs(KeyText(s, key.value), key.value.start, key.value.end, value.value, pairs);
      }
    }
  }

  lemma KeyRaised(s: Text, i: nat)
    requires i <= |s| && ParseKey(s, i) == Err(ValueError)
    ensures WsEnd(s, i) < |s| && UndecodableString(s, WsEnd(s, i))
  {
    hide WsEnd, Decode, StringEnd;
  }

  lemma LeafRaised(s: Text, i: nat)
    requires i < |s| && ParseLeaf(s, i, Strict) == Err(ValueError)
    ensures Undecodable(s, i)
  {
    hide Decode, StringEnd;
    if ParseScalar(s, i, Strict).Ok? {
      if s[i] == QUOTE {
        ParseStringSound(s, i);
      } else if !(s[i] == MINUS || IsDigit(s[i])) {
        LiteralIsConstant(s, i);
      }
    }
  }

  lemma LiteralIsConstant(s: Text, i: nat)
    requires i < |s| && ParseLiteral(s, i, Strict).Ok?
    ensures IsConstant(s[i..ParseLiteral(s, i, Strict).value], Strict)
  {
  }

  /**
   `parse` raises `ValueError` exactly when everything up to some token reads as the beginning of a value, and that
   token is a closed string that does not decode or a run of number characters that is no number.
   */
  lemma ValueErrorIsExact(s: Text)
    ensures ParseDocument(s, Strict) == Err(ValueError) <==> exists k: Stuck :: k.start == WsEnd(s, 0) && StuckAt(s, k)
  {
    hide WsEnd, StuckAt, ParseValue;
    if k: Stuck :| k.start == WsEnd(s, 0) && StuckAt(s, k) {
      StuckRaises(s, 0, k);
    }
    if ParseDocument(s, Strict) == Err(ValueError) {
      var k := RaisedIsStuck(s, 0);
    }
  }

  /** The text `[-Infinity,null]`. */
  const NEGATIVE: Text := [LBRACKET] + NEGATIVE_INFINITY + [COMMA] + NULL + [RBRACKET]

  /** A text that `json.loads` accepts, and for which `parse` does not raise what it is documented to raise. */
  lemma NegativeInfinityRaises() returns (root: Node)
    ensures ParseDocument(NEGATIVE, Lenient) == Ok(root) && root.Array? && root.items.Items?
    ensures root.items.head == Leaf(1, 10, Infinite(true))
    ensures ParseDocument(NEGATIVE, Strict) == Err(ValueError)
  {
    hide Derives, StuckAt, ParseValue;
    var s := NEGATIVE;
    root := Array(0, 16, Items(Leaf(1, 10, Infinite(true)), Items(Leaf(11, 15, Null), NoItems)));
    NegativeDerives(root);
    ParserIsExact(s, root, Lenient);
    var stuck := InArray(0, NoItems, AtToken(1));
    NegativeIsStuck(stuck);
    assert WsEnd(s, 0) == 0;
    ValueErrorIsExact(s);
  }

  lemma NegativeDerives(root: Node)
    requires root == Array(0, 16, Items(Leaf(1, 10, Infinite(true)), Items(Leaf(11, 15, Null), NoItems)))
    ensures DerivesDocument(NEGATIVE, root, Lenient)
  {
    var s := NEGATIVE;
    assert s[1..10] == NEGATIVE_INFINITY && s[0] == LBRACKET && s[10] == COMMA && s[11..15] == NULL;
    assert s[11] == NULL[0] && s[15] == RBRACKET;
    assert WsEnd(s, 1) == 1 && WsEnd(s, 10) == 10 && WsEnd(s, 11) == 11 && WsEnd(s, 15) == 15 && WsEnd(s, 16) == 16;
    assert Derives(s, root.items.head, Lenient) && Derives(s, root.items.tail.head, Lenient);
    assert DerivesItems(s, root.items.tail, 11, 15, Lenient);
    assert DerivesItems(s, root.items, 1, 15, Lenient);
  }

  lemma NegativeIsStuck(k: Stuck)
    requires k == InArray(0, NoItems, AtToken(1))
    ensures StuckAt(NEGATIVE, k) && k.start == 0
  {
    var s := NEGATIVE;
    assert s[0] == LBRACKET && s[1] == MINUS && s[2] == 73 && WsEnd(s, 1) == 1;
    NumEndAt(s, 1, 2);
    assert NumberValue(s[1..2]).None?;
    assert ItemsBefore(s, NoItems, 1, 1);
  }
}
