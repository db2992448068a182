/** Several new members of any values: the call succeeds exactly when every key and value survives. */
module JsonInsertSeveral {
  // A value that was written with two escapes reads back as one character, and the text can never say otherwise
  // again: it is ASCII from then on, and no string read from an ASCII text has a surrogate pair in it.

  import opened Text
  import opened JsonStrings
  import opened JsonGrammar
  import opened JsonNumbers
  import opened JsonParser
  import opened JsonPaths
  import opened JsonValues
  import opened JsonDumps
  import opened JsonMembers
  import opened JsonMemberTree
  import opened JsonSplice
  import opened JsonSpliceGate
  import opened JsonSurgery
  import opened JsonInsert
  import opened JsonInsertGate
  import opened JsonInsertRun
  import opened JsonInsertAgain

  // ---- Values without surrogate pairs -------------------------------------------------------------------

  predicate Pairless(v: Value) {
    match v
    case Str(s) => !HasPair(s)
    case List(elems) => PairlessList(elems)
    case Dict(entries) => PairlessEntries(entries)
    case _ => true
  }

  predicate PairlessList(elems: Values) {
    match elems case NoValues => true case Values(v, tail) => Pairless(v) && PairlessList(tail)
  }

  predicate PairlessEntries(entries: Entries) {
    match entries
    case NoEntries => true
    case Entries(key, v, tail) => !HasPair(key) && Pairless(v) && PairlessEntries(tail)
  }

  /** Dictionary keys are distinct, at every depth. */
  predicate Keyed(v: Value) {
    match v
    case List(elems) => KeyedList(elems)
    case Dict(entries) => Distinct(entries) && KeyedEntries(entries)
    case _ => true
  }

  predicate KeyedList(elems: Values) {
    match elems case NoValues => true case Values(v, tail) => Keyed(v) && KeyedList(tail)
  }

  predicate KeyedEntries(entries: Entries) {
    match entries case NoEntries => true case Entries(_, v, tail) => Keyed(v) && KeyedEntries(tail)
  }

  lemma {:induction false} EntryGot(entries: Entries, key: Text)
    requires DictGet(entries, key).Some?
    ensures PairlessEntries(entries) ==> !HasPair(key) && Pairless(DictGet(entries, key).value)
    ensures KeyedEntries(entries) ==> Keyed(DictGet(entries, key).value)
    decreases entries
  {
    hide HasPair, Pairless, Keyed;
    if entries.key != key {
      EntryGot(entries.tail, key);
    }
  }

  // ---- Equal values ---------------------------------------------------------------------------------------

  lemma {:induction false} EqualPairless(x: Value, y: Value)
    requires PyEqual(x, y) && Pairless(y)
    ensures Pairless(x)
    decreases x
  {
    hide HasPair;
    match x
    case List(elems) => EqualPairlessLists(elems, y.elems);
    case Dict(entries) => EqualPairlessEntries(entries, y.entries);
    case _ =>
  }

  lemma {:induction false} EqualPairlessLists(x: Values, y: Values)
    requires PyEqualLists(x, y) && PairlessList(y)
    ensures PairlessList(x)
    decreases x
  {
    if x.Values? {
      EqualPairless(x.head, y.head);
      EqualPairlessLists(x.tail, y.tail);
    }
  }

  lemma {:induction false} EqualPairlessEntries(x: Entries, y: Entries)
    requires PyEqualEntries(x, y) && PairlessEntries(y)
    ensures PairlessEntries(x)
    decreases x
  {
    if x.Entries? {
      EntryGot(y, x.key);
      EqualPairless(x.value, DictGet(y, x.key).value);
      EqualPairlessEntries(x.tail, y);
    }
  }

  /** The other way round the keys must be distinct, or an entry of `y` might have no counterpart. */
  lemma {:induction false} PairlessEqual(x: Value, y: Value)
    requires PyEqual(x, y) && Pairless(x) && Keyed(x)
    ensures Pairless(y)
    decreases y
  {
    hide HasPair, Distinct, PyEqualEntries;
    match y
    case List(elems) => PairlessEqualLists(x.elems, elems);
    case Dict(entries) =>
      SameKeys(x.entries, entries);
      PairlessEqualEntries(x.entries, entries, entries);
    case _ =>
  }

  lemma {:induction false} PairlessEqualLists(x: Values, y: Values)
    requires PyEqualLists(x, y) && PairlessList(x) && KeyedList(x)
    ensures PairlessList(y)
    decreases y
  {
    if y.Values? {
      PairlessEqual(x.head, y.head);
      PairlessEqualLists(x.tail, y.tail);
    }
  }

  lemma SameKeys(x: Entries, y: Entries)
    requires Size(x) == Size(y) && PyEqualEntries(x, y) && Distinct(x)
    ensures Keys(x) == Keys(y) && Distinct(y)
  {
    hide PyEqualEntries, Keys, Distinct;
    EqualKeys(x, y);
    KeyCount(x);
    KeyCount(y);
    SubsetIsSmaller(Keys(x), Keys(y));
    SubsetOfSameSize(Keys(x), Keys(y));
    ManyKeys(y);
  }

  lemma {:induction false} ManyKeys(entries: Entries)
    requires |Keys(entries)| == Size(entries)
    ensures Distinct(entries)
    decreases entries
  {
    if entries.Entries? {
      KeysAreGot(entries.tail, entries.key);
      KeyCount(entries.tail);
      AddedThere(Keys(entries.tail), entries.key);
      ManyKeys(entries.tail);
    }
  }

  lemma AddedThere(keys: set<Text>, key: Text)
    ensures key in keys ==> {key} + keys == keys
  {
  }

  lemma {:induction false} PairlessEqualEntries(x: Entries, y: Entries, rest: Entries)
    requires PyEqualEntries(x, y) && PairlessEntries(x) && KeyedEntries(x) && Keys(x) == Keys(y)
    requires Distinct(y) && Suffix(rest, y)
    ensures PairlessEntries(rest)
    decreases rest
  {
    hide HasPair, Pairless, Keyed, PyEqual, Keys;
    if rest.Entries? {
      DistinctSuffix(rest, y);
      KeysAreGot(y, rest.key);
      KeysAreGot(x, rest.key);
      EntryGot(x, rest.key);
      EqualEntriesAgree(x, y, rest.key);
      PairlessEqual(DictGet(x, rest.key).value, rest.value);
      PairlessEqualEntries(x, y, rest.tail);
    }
  }

  lemma {:induction false} DistinctSuffix(rest: Entries, all: Entries)
    requires Distinct(all) && Suffix(rest, all) && rest.Entries?
    ensures DictGet(all, rest.key) == Some(rest.value) && Suffix(rest.tail, all)
    decreases all
  {
    if rest != all {
      DistinctSuffix(rest, all.tail);
    } else {
      assert Suffix(rest.tail, rest.tail);
    }
  }

  // ---- The expected value keeps its pairs ------------------------------------------------------------------

  lemma {:induction false} SetPairless(entries: Entries, key: Text, x: Value)
    requires PairlessEntries(DictSet(entries, key, x))
    ensures Pairless(x) && !HasPair(key)
    ensures (DictGet(entries, key).Some? ==> Pairless(DictGet(entries, key).value)) ==> PairlessEntries(entries)
    decreases entries
  {
    hide HasPair, Pairless;
    if entries.Entries? && entries.key != key {
      SetPairless(entries.tail, key, x);
    }
  }

  lemma {:induction false} NthPairless(values: Values, k: nat, x: Value)
    requires k < Length(values) && PairlessList(SetNth(values, k, x))
    ensures Pairless(x) && (Pairless(NthValue(values, k)) ==> PairlessList(values))
    decreases values
  {
    hide Pairless;
    if k > 0 {
      NthPairless(values.tail, k - 1, x);
    }
  }

  lemma PutPairless(v: Value, step: Step, x: Value)
    requires Put(v, step, x).Some? && Get(v, step).Some? && Pairless(Put(v, step, x).value)
    ensures Pairless(x) && (Pairless(Get(v, step).value) ==> Pairless(v))
  {
    hide HasPair;
    match v
    case List(elems) => NthPairless(elems, ListIndex(step.index, Length(elems)).value, x);
    case Dict(entries) => SetPairless(entries, step.key, x);
  }

  lemma {:induction false} PutAtPairless(v: Value, path: seq<Step>, x: Value)
    requires PutAt(v, path, x).Some? && GetAt(v, path).Some? && Pairless(PutAt(v, path, x).value)
    ensures Pairless(x) && (Pairless(GetAt(v, path).value) ==> Pairless(v))
    decreases |path|
  {
    hide Get, Put, Pairless;
    if path != [] {
      PutAtStep(v, path, x);
      var child := Get(v, path[0]).value;
      PutPairless(v, path[0], PutAt(child, path[1..], x).value);
      PutAtPairless(child, path[1..], x);
    }
  }

  /** An assignment of the gate never removes a pair, and brings in those of its key and value. */
  lemma ExpectKeepsPairs(v: Value, ins: Insertion)
    requires ExpectOne(v, ins).Ok? && Pairless(ExpectOne(v, ins).value)
    ensures Pairless(v) && Pairless(PyValue(ins.value)) && !HasPair(ins.key)
  {
    hide GetAt, PutAt, PyValue, PyEqual, HasPair, DictSet, DictGet, IsScalar;
    var entries := GetAt(v, ins.path).value.entries;
    var x := PyValue(ins.value);
    PutAtPairless(v, ins.path, Dict(DictSet(entries, ins.key, x)));
    SetPairless(entries, ins.key, x);
    var found := DictGet(entries, ins.key);
    if found.Some? && found.value != x {
      SameIsEqual(found.value, ins.value);
      EqualPairless(found.value, x);
    }
  }

  lemma SameIsEqual(was: Value, p: Py)
    requires SameAs(was, p)
    ensures was == PyValue(p) || PyEqual(was, PyValue(p))
  {
  }

  // ---- What does not survive ---------------------------------------------------------------------------------

  /** Without NaN, and without a pair if the text is ASCII, a value survives. */
  lemma {:induction false} SurvivesWithoutPairs(p: Py, ascii: bool)
    requires IsPython(p) && Plain(Reloaded(p, ascii)) && (ascii ==> Pairless(PyValue(p)))
    ensures Faithful(p, ascii)
    decreases p
  {
    hide HasPair;
    match p
    case PyList(elems) => SurvivingElems(elems, ascii);
    case PyDict(members) => SurvivingMembers(NoEntries, members, ascii);
    case _ =>
  }

  lemma {:induction false} SurvivingElems(elems: PyElems, ascii: bool)
    requires PythonElems(elems) && PlainList(ReloadedElems(elems, ascii))
    requires ascii ==> PairlessList(ElemValues(elems))
    ensures FaithfulElems(elems, ascii)
    decreases elems
  {
    if elems.PyElems? {
      SurvivesWithoutPairs(elems.head, ascii);
      SurvivingElems(elems.tail, ascii);
    }
  }

  lemma {:induction false} SurvivingMembers(soFar: Entries, members: PyMembers, ascii: bool)
    requires PythonMembers(members) && PlainEntries(ReloadedMembers(soFar, members, ascii))
    requires ascii ==> PairlessEntries(MemberValues(members))
    ensures FaithfulMembers(members, ascii)
    decreases members
  {
    hide HasPair, Plain, Pairless, PyValue, Reloaded, IsPython, Faithful;
    if members.PyMembers? {
      var key, v := members.key, Reloaded(members.value, ascii);
      KeysSurvive(members, ascii);
      FaithfulStringKept(key, ascii);
      DictSetGet(soFar, key, v, key);
      MemberReloaded(DictSet(soFar, key, v), members.tail, ascii, key);
      DictGetPlain(ReloadedMembers(soFar, members, ascii), key);
      SurvivesWithoutPairs(members.value, ascii);
      SurvivingMembers(DictSet(soFar, key, v), members.tail, ascii);
    }
  }

  lemma {:induction false} KeysSurvive(members: PyMembers, ascii: bool)
    requires ascii ==> PairlessEntries(MemberValues(members))
    ensures FaithfulKeys(members, ascii)
    decreases members
  {
    hide HasPair, Pairless, PyValue;
    if members.PyMembers? {
      KeysSurvive(members.tail, ascii);
    }
  }

  // ---- ASCII texts -------------------------------------------------------------------------------------------

  predicate Ascii(t: Text) {
    forall k :: 0 <= k < |t| ==> t[k] < 128
  }

  lemma {:induction false} DecodePairless(b: Text)
    requires Ascii(b) && Decode(b).Some?
    ensures !HasPair(Decode(b).value)
    ensures Decode(b).value != [] && IsLow(Decode(b).value[0]) ==>
              UnicodeEscape(b, 0).Some? && IsLow(UnicodeEscape(b, 0).value)
    decreases |b|
  {
    if b != [] {
      var u := FirstUnit(b).value;
      var rest := Decode(b[u.width..]).value;
      DecodePairless(b[u.width..]);
      var all := [u.code] + rest;
      NextEscape(b, u);
      forall k | 0 <= k < |all| - 1 ensures !(IsHigh(all[k]) && IsLow(all[k + 1])) {
        assert k > 0 ==> all[k] == rest[k - 1] && all[k + 1] == rest[k - 1 + 1];
      }
    }
  }

  lemma NextEscape(b: Text, u: Unit)
    requires b != [] && Ascii(b) && FirstUnit(b) == Some(u)
    ensures IsHigh(u.code) ==>
              !(UnicodeEscape(b[u.width..], 0).Some? && IsLow(UnicodeEscape(b[u.width..], 0).value))
    ensures IsLow(u.code) ==> UnicodeEscape(b, 0) == Some(u.code)
  {
    assert b[0] < 128;
    if |b| > 1 && b[0] == BACKSLASH && b[1] != LOWER_U {
      assert b[1] < 128;
    }
    if u.width == 6 && UnicodeEscape(b[6..], 0).Some? {
      assert UnicodeEscape(b[6..], 0) == UnicodeEscape(b, 6);
    }
  }

  lemma {:induction false} SetKept(entries: Entries, key: Text, x: Value)
    requires PairlessEntries(entries) && KeyedEntries(entries) && !HasPair(key) && Pairless(x) && Keyed(x)
    ensures PairlessEntries(DictSet(entries, key, x)) && KeyedEntries(DictSet(entries, key, x))
    decreases entries
  {
    hide HasPair, Pairless, Keyed;
    if entries.Entries? && entries.key != key {
      SetKept(entries.tail, key, x);
    }
  }

  lemma SliceAscii(s: Text, i: nat, j: nat)
    requires Ascii(s) && i <= j <= |s|
    ensures Ascii(s[i..j])
  {
  }

  lemma StringPairless(t: Text)
    requires Ascii(t) && StringToken(t).Some?
    ensures !HasPair(StringToken(t).value)
  {
    hide Decode, HasPair;
    SliceAscii(t, 1, |t| - 1);
    DecodePairless(t[1..|t| - 1]);
  }

  lemma TokenPairless(t: Text, d: Dialect)
    requires Ascii(t) && TokenValue(t, d).Some?
    ensures Pairless(TokenValue(t, d).value) && Keyed(TokenValue(t, d).value)
  {
    hide StringToken, HasPair;
    if t[0] == QUOTE {
      StringPairless(t);
    }
  }

  /** What an ASCII text decodes to has no pair, and distinct keys. */
  lemma {:induction false} AsciiDecodes(s: Text, n: Node, d: Dialect)
    requires Ascii(s) && Derives(s, n, d)
    ensures Pairless(ValueOf(n)) && Keyed(ValueOf(n))
    decreases n
  {
    hide TokenValue, WsEnd, HasPair, Ascii;
    match n
    case Leaf(start, end, _) =>
      SliceAscii(s, start, end);
      TokenPairless(s[start..end], d);
    case Array(start, end, items) => AsciiItems(s, items, start + 1, end - 1, d);
    case Object(start, end, pairs) => AsciiPairs(s, NoEntries, pairs, start + 1, end - 1, d);
  }

  lemma {:induction false} AsciiItems(s: Text, items: Items, i: nat, j: nat, d: Dialect)
    requires Ascii(s) && i <= j <= |s| && DerivesItems(s, items, i, j, d)
    ensures PairlessList(ValuesOf(items)) && KeyedList(ValuesOf(items))
    decreases items
  {
    hide WsEnd, Derives, Pairless, Keyed, ValueOf, Ascii;
    if items.Items? {
      AsciiDecodes(s, items.head, d);
      if items.tail.Items? {
        AsciiItems(s, items.tail, WsEnd(s, items.head.end) + 1, j, d);
      }
    }
  }

  lemma {:induction false} AsciiPairs(s: Text, soFar: Entries, pairs: Pairs, i: nat, j: nat, d: Dialect)
    requires Ascii(s) && i <= j <= |s| && DerivesPairs(s, pairs, i, j, d)
    requires PairlessEntries(soFar) && KeyedEntries(soFar) && Distinct(soFar)
    ensures var all := EntriesOf(soFar, pairs); PairlessEntries(all) && KeyedEntries(all) && Distinct(all)
    decreases pairs
  {
    hide WsEnd, Derives, Pairless, Keyed, ValueOf, Ascii, StringToken, HasPair, PairlessEntries, KeyedEntries, Distinct;
    if pairs.Pairs? {
      var v := ValueOf(pairs.child);
      AsciiDecodes(s, pairs.child, d);
      SliceAscii(s, pairs.keyStart, pairs.keyEnd);
      StringPairless(s[pairs.keyStart..pairs.keyEnd]);
      SetKept(soFar, pairs.key, v);
      DictSetKeys(soFar, pairs.key, v);
      if pairs.tail.Pairs? {
        AsciiPairs(s, DictSet(soFar, pairs.key, v), pairs.tail, WsEnd(s, pairs.child.end) + 1, j, d);
      }
    }
  }

  // ---- An ASCII text stays one --------------------------------------------------------------------------------

  lemma JoinAscii(x: Text, y: Text)
    requires Ascii(x) && Ascii(y)
    ensures Ascii(x + y)
  {
  }

  lemma HexAscii(n: nat)
    requires n < 16
    ensures HexDigit(n) < 128
  {
  }

  lemma EscapeAscii(c: nat)
    requires c < 0x10000
    ensures Ascii(WriteEscape(c))
  {
    hide HexDigit;
    HexAscii(c / 4096);
    HexAscii(c / 256 % 16);
    HexAscii(c / 16 % 16);
    HexAscii(c % 16);
  }

  lemma CodeAscii(c: Code)
    ensures Ascii(WriteCode(c, true))
  {
    hide WriteEscape, HighHalf, LowHalf;
    if c < 0x10000 {
      EscapeAscii(c);
    } else {
      EscapeAscii(HighHalf(c));
      EscapeAscii(LowHalf(c));
    }
  }

  lemma {:induction false} BodyAscii(s: Text)
    ensures Ascii(WriteBody(s, true))
    decreases |s|
  {
    hide WriteCode;
    if s != [] {
      CodeAscii(s[0]);
      BodyAscii(s[1..]);
    }
  }

  lemma StringAscii(s: Text)
    ensures Ascii(DumpString(s, true))
  {
    hide WriteBody;
    BodyAscii(s);
  }

  lemma NumberAscii(t: Text)
    requires NumberValue(t).Some?
    ensures Ascii(t)
  {
    hide NumberValue;
    NumberChars(t);
  }

  lemma {:induction false} DumpAscii(p: Py)
    ensures Ascii(Dump(p, true))
    decreases p
  {
    hide DumpString, NumberValue, WriteInt;
    match p
    case PyInt(n) =>
      IntRoundTrip(n);
      NumberAscii(WriteInt(n));
    case PyFloat(spelling) => NumberAscii(spelling);
    case PyStr(s) => StringAscii(s);
    case PyList(elems) => ElemsAscii(elems);
    case PyDict(members) => MembersAscii(members);
    case _ =>
  }

  lemma {:induction false} ElemsAscii(elems: PyElems)
    ensures Ascii(DumpElems(elems, true))
    decreases elems
  {
    hide Dump;
    if elems.PyElems? {
      DumpAscii(elems.head);
      ElemsAscii(elems.tail);
    }
  }

  lemma {:induction false} MembersAscii(members: PyMembers)
    ensures Ascii(DumpMembers(members, true))
    decreases members
  {
    hide Dump, DumpString;
    if members.PyMembers? {
      StringAscii(members.key);
      DumpAscii(members.value);
      MembersAscii(members.tail);
    }
  }

  lemma ChunkAscii(s: Text, n: Node, key: Text, value: Py)
    requires Ascii(s) && n.Object? && 0 < n.end <= |s|
    ensures Ascii(ChunkText(s, n, key, value, true))
  {
    hide DumpString, Dump, ClosingIndent, Ascii;
    StringAscii(key);
    DumpAscii(value);
    var closing := ClosingIndent(s, n.end - 1);
    IndentAscii(s, n.end - 1);
    BlankAscii();
    var colon, text := [COLON, SPACE], Dump(value, true);
    JoinAscii(colon, text);
    JoinAscii(DumpString(key, true), colon + text);
    JoinAscii(closing, [SPACE, SPACE]);
    JoinAscii(closing + [SPACE, SPACE], DumpString(key, true) + (colon + text));
    var member := MemberText(closing + [SPACE, SPACE], key, value, true);
    JoinAscii([LF], closing);
    JoinAscii(member, [LF] + closing);
    JoinAscii([LF], member + ([LF] + closing));
    JoinAscii([LF], member);
    JoinAscii([COMMA], [LF] + member);
  }

  lemma IndentAscii(s: Text, close: nat)
    requires Ascii(s) && close <= |s|
    ensures Ascii(ClosingIndent(s, close))
  {
    hide LineStart, Ascii;
    SliceAscii(s, LineStart(s, close), close);
    BlankAscii();
  }

  lemma BlankAscii()
    ensures Ascii([]) && Ascii([LF]) && Ascii([COMMA]) && Ascii([SPACE, SPACE]) && Ascii([COLON, SPACE])
  {
  }

  /** An insertion into a text that escapes its characters leaves one that does. */
  lemma StaysEscaped(s: Text, n: Node, key: Text, value: Py, d: Dialect)
    requires DetectEnsureAscii(s) && Derives(s, n, d) && n.Object?
    ensures 0 < n.end <= |s| && DetectEnsureAscii(Inserted(s, n, key, value, true))
  {
    hide ChunkText, DerivesPairs;
    var close, chunk := n.end - 1, ChunkText(s, n, key, value, true);
    var out := Inserted(s, n, key, value, true);
    ChunkAscii(s, n, key, value);
    var k :| 0 <= k < |s| - 1 && s[k] == BACKSLASH && s[k + 1] == LOWER_U;
    if k + 1 < close {
      assert out[k] == BACKSLASH && out[k + 1] == LOWER_U;
    } else {
      assert s[close] == RBRACE;
      var m := k + |chunk|;
      assert out[m] == BACKSLASH && out[m + 1] == LOWER_U;
    }
  }

  // ---- A run of new members --------------------------------------------------------------------------------

  /** Where its turn comes, every key is new to its object. */
  predicate NewMembers(raw: Text, edits: seq<Insertion>) {
    forall k :: 0 <= k < |edits| ==>
      && IsPython(edits[k].value) && TreeAfter(raw, edits[..k]).Some?
      && Adds(TreeAfter(raw, edits[..k]).value, edits[k])
  }

  /** The key and the value survive being written into the text of that moment. */
  predicate Survives(raw: Text, edits: seq<Insertion>, k: nat)
    requires k < |edits|
  {
    InsertAll(raw, edits[..k]).Ok? &&
    FaithfulInsertion(edits[k], DetectEnsureAscii(InsertAll(raw, edits[..k]).value))
  }

  /** The step from `s` with the tree `r` to `s2`. */
  ghost predicate Turn(s: Text, r: Node, ins: Insertion, s2: Text) {
    && DerivesDocument(s, r, Strict) && Loads(s) == Ok(ValueOf(r)) && Adds(r, ins) && IsPython(ins.value)
    && 0 < Navigate(r, ins.path).value.end <= |s|
    && s2 == Inserted(s, Navigate(r, ins.path).value, ins.key, ins.value, DetectEnsureAscii(s))
  }

  lemma TurnAt(raw: Text, edits: seq<Insertion>, k: nat)
    requires NewMembers(raw, edits) && k < |edits|
    ensures InsertAll(raw, edits[..k]).Ok? && TreeAfter(raw, edits[..k]).Some? && InsertAll(raw, edits[..k + 1]).Ok?
    ensures Turn(InsertAll(raw, edits[..k]).value, TreeAfter(raw, edits[..k]).value, edits[k],
                 InsertAll(raw, edits[..k + 1]).value)
    ensures Survives(raw, edits, k) <==>
            FaithfulInsertion(edits[k], DetectEnsureAscii(InsertAll(raw, edits[..k]).value))
  {
    hide Derives, DerivesDocument, Navigate, Inserted, DetectEnsureAscii, ParseValue, WsEnd, FaithfulInsertion, Loads,
      IsPython;
    var s, r := InsertAll(raw, edits[..k]).value, TreeAfter(raw, edits[..k]).value;
    assert edits[..k + 1][..k] == edits[..k] && edits[..k + 1][k] == edits[k];
    ParserIsExact(s, r, Strict);
    LoadsStrict(s, r);
    NavigatedInside(s, edits[k].path);
  }

  lemma ExpectAt(v: Value, edits: seq<Insertion>, k: nat)
    requires k < |edits|
    ensures ExpectAll(v, edits[..k + 1]) ==
            match ExpectAll(v, edits[..k]) case Err(error) => Err(error) case Ok(w) => ExpectOne(w, edits[k])
  {
    hide ExpectOne;
    assert edits[..k + 1][..k] == edits[..k] && edits[..k + 1][k] == edits[k];
  }

  /** One turn of a key and a value that survive, and of ones that do not, on a text that is as expected. */
  lemma TurnIsExact(s: Text, r: Node, ins: Insertion, s2: Text)
    requires Turn(s, r, ins, s2)
    ensures Loads(s2).Ok? && ExpectOne(ValueOf(r), ins).Ok?
    ensures PyEqual(Loads(s2).value, ExpectOne(ValueOf(r), ins).value) <==>
            FaithfulInsertion(ins, DetectEnsureAscii(s))
    ensures FaithfulInsertion(ins, DetectEnsureAscii(s)) ==> Loads(s2) == ExpectOne(ValueOf(r), ins)
  {
    hide DerivesDocument, Navigate, ValueOf, Loads, Inserted, PyEqual, FaithfulInsertion, ExpectOne, IsPython, Adds,
      DetectEnsureAscii;
    InsertionGateIsExact(s, r, ins, DetectEnsureAscii(s));
  }

  lemma StrictEqualsItself(s: Text, root: Node)
    requires DerivesDocument(s, root, Strict)
    ensures PyEqual(ValueOf(root), ValueOf(root))
  {
    hide Derives, WsEnd, ValueOf, PyEqual, PlainTree, Plain;
    StrictPlain(s, root);
    PlainTreeValue(root);
    PlainEqualsItself(ValueOf(root));
  }

  /** As long as everything survives, the text says what is expected of it. */
  lemma {:induction false} AllSurvived(raw: Text, root: Node, edits: seq<Insertion>, n: nat)
    requires DerivesDocument(raw, root, Strict) && NewMembers(raw, edits) && n <= |edits|
    requires forall k :: 0 <= k < n ==> Survives(raw, edits, k)
    ensures InsertAll(raw, edits[..n]).Ok? && Loads(InsertAll(raw, edits[..n]).value).Ok?
    ensures ExpectAll(ValueOf(root), edits[..n]) == Loads(InsertAll(raw, edits[..n]).value)
    ensures var v := Loads(InsertAll(raw, edits[..n]).value).value; PyEqual(v, v)
    decreases n
  {
    hide DerivesDocument, NewMembers, Survives, ValueOf, Loads, PyEqual, ExpectOne, InsertOne, FaithfulInsertion;
    if n == 0 {
      assert edits[..0] == [];
      LoadsStrict(raw, root);
      StrictEqualsItself(raw, root);
    } else {
      AllSurvived(raw, root, edits, n - 1);
      TurnAt(raw, edits, n - 1);
      ExpectAt(ValueOf(root), edits, n - 1);
      TurnIsExact(InsertAll(raw, edits[..n - 1]).value, TreeAfter(raw, edits[..n - 1]).value, edits[n - 1],
                  InsertAll(raw, edits[..n]).value);
    }
  }

  /** What a strict text says holds no NaN, so what was put into it does not. */
  lemma PlainEntry(v: Value, path: seq<Step>, key: Text, x: Value)
    requires WithEntry(v, path, key, x).Some? && Plain(WithEntry(v, path, key, x).value)
    ensures Plain(x)
  {
    hide GetAt, PutAt, Plain;
    var d := DictSet(GetAt(v, path).value.entries, key, x);
    PutAtGet(v, path, Dict(d));
    GetAtPlain(WithEntry(v, path, key, x).value, path);
    PlainDict(d);
    DictSetGet(GetAt(v, path).value.entries, key, x, key);
    DictGetPlain(d, key);
  }

  lemma PlainDict(entries: Entries)
    ensures Plain(Dict(entries)) <==> PlainEntries(entries)
  {
  }

  /** A key or value that does not survive, although its text is still accepted, has a pair. */
  lemma TurnSpoils(s: Text, r: Node, ins: Insertion, s2: Text, r2: Node)
    requires Turn(s, r, ins, s2) && DerivesDocument(s2, r2, Strict)
    requires !FaithfulInsertion(ins, DetectEnsureAscii(s))
    ensures DetectEnsureAscii(s) && !(Pairless(PyValue(ins.value)) && !HasPair(ins.key))
  {
    hide Navigate, ValueOf, Inserted, DetectEnsureAscii, IsPython, Adds, Derives, WsEnd, Plain, PlainTree, Reloaded,
      ReloadedString, HasPair, Pairless, Faithful, WithEntry, PyValue;
    var ascii := DetectEnsureAscii(s);
    InsertionReloads(s, r, ins, ascii);
    LoadsStrict(s2, r2);
    StrictPlain(s2, r2);
    PlainTreeValue(r2);
    PlainEntry(ValueOf(r), ins.path, ReloadedString(ins.key, ascii), Reloaded(ins.value, ascii));
    if !ascii || Pairless(PyValue(ins.value)) {
      SurvivesWithoutPairs(ins.value, ascii);
    }
  }

  lemma TurnStaysEscaped(s: Text, r: Node, ins: Insertion, s2: Text)
    requires Turn(s, r, ins, s2) && DetectEnsureAscii(s)
    ensures DetectEnsureAscii(s2)
  {
    hide Navigate, ValueOf, Inserted, DetectEnsureAscii, IsPython, Derives, WsEnd, Loads;
    TargetDerives(s, r, ins.path, Strict);
    StaysEscaped(s, Navigate(r, ins.path).value, ins.key, ins.value, Strict);
  }

  /** After something did not survive, the text is ASCII, and what is expected has a pair. */
  lemma {:induction false} Spoiled(raw: Text, root: Node, edits: seq<Insertion>, k: nat, n: nat)
    requires NewMembers(raw, edits) && k < n <= |edits| && k + 1 < |edits| && !Survives(raw, edits, k)
    ensures InsertAll(raw, edits[..n]).Ok? && DetectEnsureAscii(InsertAll(raw, edits[..n]).value)
    ensures ExpectAll(ValueOf(root), edits[..n]).Ok? ==> !Pairless(ExpectAll(ValueOf(root), edits[..n]).value)
    decreases n
  {
    hide NewMembers, Survives, ValueOf, ExpectOne, InsertOne, FaithfulInsertion, Pairless, HasPair, DetectEnsureAscii,
      Turn, PyValue, DerivesDocument;
    TurnAt(raw, edits, n - 1);
    ExpectAt(ValueOf(root), edits, n - 1);
    var s, r := InsertAll(raw, edits[..n - 1]).value, TreeAfter(raw, edits[..n - 1]).value;
    var s2, ins := InsertAll(raw, edits[..n]).value, edits[n - 1];
    if n > k + 1 {
      Spoiled(raw, root, edits, k, n - 1);
    } else {
      TurnAt(raw, edits, n);
      TurnDerives(raw, edits, n);
      TurnSpoils(s, r, ins, s2, TreeAfter(raw, edits[..n]).value);
    }
    TurnStaysEscaped(s, r, ins, s2);
    var before := ExpectAll(ValueOf(root), edits[..n - 1]);
    if before.Ok? && ExpectOne(before.value, ins).Ok? && Pairless(ExpectOne(before.value, ins).value) {
      ExpectKeepsPairs(before.value, ins);
    }
  }

  lemma TurnDerives(raw: Text, edits: seq<Insertion>, k: nat)
    requires NewMembers(raw, edits) && k < |edits|
    ensures InsertAll(raw, edits[..k]).Ok? && TreeAfter(raw, edits[..k]).Some?
    ensures DerivesDocument(InsertAll(raw, edits[..k]).value, TreeAfter(raw, edits[..k]).value, Strict)
  {
    hide NewMembers, DerivesDocument, Navigate, Loads, IsPython;
    TurnAt(raw, edits, k);
  }

  /** No ASCII text is equal to a value with a pair. */
  lemma NeverEqual(s: Text, w: Value)
    requires DetectEnsureAscii(s) && Loads(s).Ok? && !Pairless(w)
    ensures !PyEqual(Loads(s).value, w)
  {
    hide Derives, Pairless, Keyed, PyEqual, ParseValue, WsEnd;
    var root := ParseDocument(s, Lenient).value;
    ParserIsExact(s, root, Lenient);
    AsciiDecodes(s, root, Lenient);
    if PyEqual(Loads(s).value, w) {
      PairlessEqual(Loads(s).value, w);
    }
  }

  /**
   New members of any values, one after the other: the call succeeds if and only if every key and every value
   survives being written at its turn; and then the text says exactly what is expected.
   */
  lemma SeveralAreExact(raw: Text, root: Node, edits: seq<Insertion>)
    requires DerivesDocument(raw, root, Strict) && NewMembers(raw, edits)
    ensures InsertProperties(raw, edits).Ok? <==> forall k :: 0 <= k < |edits| ==> Survives(raw, edits, k)
    ensures InsertProperties(raw, edits).Ok? ==>
              && InsertProperties(raw, edits) == InsertAll(raw, edits)
              && Loads(InsertAll(raw, edits).value) == ExpectAll(ValueOf(root), edits)
  {
    hide DerivesDocument, NewMembers, Survives, ValueOf, Loads, PyEqual, ExpectOne, InsertOne, FaithfulInsertion,
      ExpectAll, InsertAll, Pairless, DetectEnsureAscii, TreeAfter, Turn;
    var n := |edits|;
    assert edits[..n] == edits;
    LoadsStrict(raw, root);
    if forall k :: 0 <= k < n ==> Survives(raw, edits, k) {
      AllSurvived(raw, root, edits, n);
    } else {
      var k: nat :| k < n && !Survives(raw, edits, k);
      TurnAt(raw, edits, n - 1);
      if k + 1 < n {
        SpoiledIsRefused(raw, root, edits, k);
      } else if forall j :: 0 <= j < n - 1 ==> Survives(raw, edits, j) {
        AllSurvived(raw, root, edits, n - 1);
        ExpectAt(ValueOf(root), edits, n - 1);
        LastTurn(raw, edits);
      } else {
        var j: nat :| j < n - 1 && !Survives(raw, edits, j);
        SpoiledIsRefused(raw, root, edits, j);
      }
    }
  }

  lemma SpoiledIsRefused(raw: Text, root: Node, edits: seq<Insertion>, k: nat)
    requires DerivesDocument(raw, root, Strict) && NewMembers(raw, edits)
    requires k + 1 < |edits| && !Survives(raw, edits, k)
    ensures InsertProperties(raw, edits).Err?
  {
    hide DerivesDocument, NewMembers, Survives, ValueOf, Loads, PyEqual, ExpectAll, InsertAll, Pairless,
      DetectEnsureAscii;
    assert edits[..|edits|] == edits;
    LoadsStrict(raw, root);
    Spoiled(raw, root, edits, k, |edits|);
    var out, expected := InsertAll(raw, edits).value, ExpectAll(ValueOf(root), edits);
    if expected.Ok? && Loads(out).Ok? {
      NeverEqual(out, expected.value);
    }
  }

  /** The last turn decides when everything before it survived. */
  lemma LastTurn(raw: Text, edits: seq<Insertion>)
    requires NewMembers(raw, edits) && edits != [] && !Survives(raw, edits, |edits| - 1)
    ensures var n := |edits|;
            && InsertAll(raw, edits[..n - 1]).Ok? && Loads(InsertAll(raw, edits[..n - 1]).value).Ok?
            && InsertAll(raw, edits).Ok? && Loads(InsertAll(raw, edits).value).Ok?
            && var w := ExpectOne(Loads(InsertAll(raw, edits[..n - 1]).value).value, edits[n - 1]);
               w.Ok? && !PyEqual(Loads(InsertAll(raw, edits).value).value, w.value)
  {
    hide NewMembers, Survives, ValueOf, PyEqual, ExpectOne, InsertAll, FaithfulInsertion, DetectEnsureAscii, TreeAfter,
      DerivesDocument, Navigate, IsPython, Loads;
    var n := |edits|;
    assert edits[..n] == edits;
    TurnAt(raw, edits, n - 1);
    TurnIsExact(InsertAll(raw, edits[..n - 1]).value, TreeAfter(raw, edits[..n - 1]).value, edits[n - 1],
                InsertAll(raw, edits).value);
  }
}
