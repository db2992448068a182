/**
 `json.loads` after `json.dumps`, for any value: the dumped text has exactly one tree, and a value comes back
 unchanged when it holds no NaN and, in ASCII mode, no string with a surrogate pair spelled apart.
 */
module JsonDumps {
  import opened Text
  import opened JsonStrings
  import opened JsonGrammar
  import opened JsonParser
  import opened JsonPaths
  import opened JsonValues
  import opened JsonLocality

  /** No infinity and no NaN: what the strict grammar can say. */
  predicate Finite(p: Py) {
    match p
    case PyNaN => false
    case PyInfinite(_) => false
    case PyList(elems) => FiniteElems(elems)
    case PyDict(members) => FiniteMembers(members)
    case _ => true
  }

  predicate FiniteElems(elems: PyElems) {
    match elems case NoElems => true case PyElems(head, tail) => Finite(head) && FiniteElems(tail)
  }

  predicate FiniteMembers(members: PyMembers) {
    match members case NoMembers => true case PyMembers(_, value, tail) => Finite(value) && FiniteMembers(tail)
  }

  predicate Spells(p: Py, d: Dialect) {
    d == Strict ==> Finite(p)
  }

  // ---- The tree of a dumped value -------------------------------------------------------------------

  /** The tree of `Dump(p, ascii)` when that text starts at offset `at`. */
  function Tree(p: Py, ascii: bool, at: nat): (n: Node)
    ensures n.start == at && n.end == at + |Dump(p, ascii)|
  {
    match p
    case PyList(elems) => Array(at, at + |Dump(p, ascii)|, ElemTrees(elems, ascii, at + 1))
    case PyDict(members) => Object(at, at + |Dump(p, ascii)|, MemberTrees(members, ascii, at + 1))
    case _ => Leaf(at, at + |Dump(p, ascii)|, Reloaded(p, ascii))
  }

  function ElemTrees(elems: PyElems, ascii: bool, at: nat): Items {
    match elems
    case NoElems => NoItems
    case PyElems(head, tail) => Items(Tree(head, ascii, at), ElemTrees(tail, ascii, at + |Dump(head, ascii)| + 1))
  }

  function MemberTrees(members: PyMembers, ascii: bool, at: nat): Pairs {
    match members
    case NoMembers => NoPairs
    case PyMembers(key, value, tail) =>
      var colon := at + |DumpString(key, ascii)|;
      Pairs(ReloadedString(key, ascii), at, colon, Tree(value, ascii, colon + 1),
            MemberTrees(tail, ascii, colon + 1 + |Dump(value, ascii)| + 1))
  }

  lemma {:induction false} TreeValue(p: Py, ascii: bool, at: nat)
    ensures ValueOf(Tree(p, ascii, at)) == Reloaded(p, ascii)
    decreases p
  {
    match p
    case PyList(elems) => ElemTreeValues(elems, ascii, at + 1);
    case PyDict(members) => MemberTreeValues(NoEntries, members, ascii, at + 1);
    case _ =>
  }

  lemma {:induction false} ElemTreeValues(elems: PyElems, ascii: bool, at: nat)
    ensures ValuesOf(ElemTrees(elems, ascii, at)) == ReloadedElems(elems, ascii)
    decreases elems
  {
    if elems.PyElems? {
      TreeValue(elems.head, ascii, at);
      ElemTreeValues(elems.tail, ascii, at + |Dump(elems.head, ascii)| + 1);
    }
  }

  lemma {:induction false} MemberTreeValues(soFar: Entries, members: PyMembers, ascii: bool, at: nat)
    ensures EntriesOf(soFar, MemberTrees(members, ascii, at)) == ReloadedMembers(soFar, members, ascii)
    decreases members
  {
    hide Dump, Tree, DumpString, ReloadedString, Reloaded, ValueOf, DictSet;
    if members.PyMembers? {
      var colon := at + |DumpString(members.key, ascii)|;
      TreeValue(members.value, ascii, colon + 1);
      MemberTreeValues(DictSet(soFar, ReloadedString(members.key, ascii), Reloaded(members.value, ascii)),
                       members.tail, ascii, colon + 1 + |Dump(members.value, ascii)| + 1);
    }
  }

  // ---- The text derives the tree -----------------------------------------------------------------------

  lemma NoGap(s: Text, i: nat)
    requires i <= |s| && (i < |s| ==> !IsWs(s[i]))
    ensures WsEnd(s, i) == i
  {
  }

  lemma DumpedString(s: Text, at: nat, key: Text, ascii: bool)
    requires At(s, at, DumpString(key, ascii))
    ensures at + |DumpString(key, ascii)| <= |s| && |DumpString(key, ascii)| >= 2 && s[at] == QUOTE
    ensures StringToken(s[at..at + |DumpString(key, ascii)|]) == Some(ReloadedString(key, ascii))
  {
    hide WriteBody, Decode;
    var body := WriteBody(key, ascii);
    AtIsSlice(s, at, Quoted(body));
    assert Quoted(body)[1..|Quoted(body)| - 1] == body;
    assert s[at] == s[at..at + |Quoted(body)|][0];
    DecodeWritten(key, ascii);
  }

  lemma ScalarDerives(s: Text, at: nat, p: Py, ascii: bool, d: Dialect)
    requires At(s, at, Dump(p, ascii)) && IsScalar(p) && Spells(p, d)
    ensures Derives(s, Tree(p, ascii, at), d)
  {
    hide TokenValue;
    DumpReloads(p, ascii);
    AtIsSlice(s, at, Dump(p, ascii));
    TokenHead(Dump(p, ascii), Lenient);
  }

  /** The tree of a container, one level down. */
  lemma ContainerTree(p: Py, ascii: bool, at: nat)
    ensures p.PyList? ==>
              && Dump(p, ascii) == [LBRACKET] + DumpElems(p.elems, ascii) + [RBRACKET]
              && Tree(p, ascii, at) == Array(at, at + |DumpElems(p.elems, ascii)| + 2,
                 ElemTrees(p.elems, ascii, at + 1))
    ensures p.PyDict? ==>
              && Dump(p, ascii) == [LBRACE] + DumpMembers(p.members, ascii) + [RBRACE]
              && Tree(p, ascii, at) == Object(at, at + |DumpMembers(p.members, ascii)| + 2,
                 MemberTrees(p.members, ascii, at + 1))
  {
    hide DumpElems, DumpMembers, ElemTrees, MemberTrees, Reloaded;
  }

  lemma {:induction false} DumpDerives(s: Text, at: nat, p: Py, ascii: bool, d: Dialect)
    requires At(s, at, Dump(p, ascii)) && Spells(p, d)
    ensures Derives(s, Tree(p, ascii, at), d)
    decreases p
  {
    hide TokenValue, DerivesItems, DerivesPairs, At, WsEnd, Dump, Tree, DumpElems, DumpMembers, ElemTrees, MemberTrees;
    ContainerTree(p, ascii, at);
    match p
    case PyList(elems) =>
      Bracketed(s, at, LBRACKET, DumpElems(elems, ascii), RBRACKET);
      ElemsDerive(s, at + 1, elems, at + 1 + |DumpElems(elems, ascii)|, ascii, d);
    case PyDict(members) =>
      Bracketed(s, at, LBRACE, DumpMembers(members, ascii), RBRACE);
      MembersDerive(s, at + 1, members, at + 1 + |DumpMembers(members, ascii)|, ascii, d);
    case _ => ScalarDerives(s, at, p, ascii, d);
  }

  lemma Bracketed(s: Text, at: nat, left: Code, inner: Text, right: Code)
    requires At(s, at, [left] + inner + [right])
    ensures at + |inner| + 2 <= |s| && s[at] == left && s[at + 1 + |inner|] == right && At(s, at + 1, inner)
  {
    hide At;
    AtAppend(s, at, [left] + inner, [right]);
    AtAppend(s, at, [left], inner);
    OneAt(s, at, left);
    OneAt(s, at + 1 + |inner|, right);
  }

  lemma OneAt(s: Text, at: nat, c: Code)
    ensures At(s, at, [c]) <==> at < |s| && s[at] == c
  {
    assert [c][1..] == [];
  }

  /** A value and the ones after it, with nothing in between but the comma. */
  lemma FirstItem(s: Text, head: Node, tail: Items, i: nat, j: nat, d: Dialect)
    requires i < head.end <= j <= |s| && head.start == i == WsEnd(s, i) && Derives(s, head, d)
    requires WsEnd(s, head.end) == head.end
    requires if tail.NoItems? then head.end == j
             else head.end < j && s[head.end] == COMMA && DerivesItems(s, tail, head.end + 1, j, d)
    ensures DerivesItems(s, Items(head, tail), i, j, d)
  {
    hide Derives, WsEnd;
  }

  lemma FiniteStep(elems: PyElems, d: Dialect)
    requires elems.PyElems? && (d == Strict ==> FiniteElems(elems))
    ensures Spells(elems.head, d) && (d == Strict ==> FiniteElems(elems.tail))
  {
  }

  lemma NothingDumped(ascii: bool)
    ensures DumpElems(NoElems, ascii) == []
  {
  }

  lemma NothingDerives(s: Text, i: nat, ascii: bool, d: Dialect)
    requires i < |s| && !IsWs(s[i])
    ensures DerivesItems(s, ElemTrees(NoElems, ascii, i), i, i, d)
  {
  }

  lemma ElemTreesStep(elems: PyElems, ascii: bool, at: nat)
    requires elems.PyElems?
    ensures ElemTrees(elems, ascii, at) ==
            Items(Tree(elems.head, ascii, at),
                  ElemTrees(elems.tail, ascii, at + |Dump(elems.head, ascii)| + 1))
    ensures ElemTrees(elems.tail, ascii, at + |Dump(elems.head, ascii)| + 1).NoItems? <==> elems.tail.NoElems?
    ensures DumpElems(elems, ascii) ==
            Dump(elems.head, ascii) + if elems.tail.NoElems? then [] else [COMMA] + DumpElems(elems.tail, ascii)
  {
    hide Tree, Dump;
  }

  lemma {:induction false} ElemsDerive(s: Text, i: nat, elems: PyElems, j: nat, ascii: bool, d: Dialect)
    requires At(s, i, DumpElems(elems, ascii)) && j == i + |DumpElems(elems, ascii)| && j < |s| && !IsWs(s[j])
    requires d == Strict ==> FiniteElems(elems)
    ensures DerivesItems(s, ElemTrees(elems, ascii, i), i, j, d)
    decreases elems
  {
    hide Derives, At, WsEnd, Tree, Dump, DerivesItems, ElemTrees, DumpElems, Spells, FiniteElems, TokenValue;
    match elems
    case NoElems =>
      NothingDumped(ascii);
      NothingDerives(s, i, ascii, d);
    case PyElems(head, tail) =>
      var end := i + |Dump(head, ascii)|;
      var rest := if tail.NoElems? then [] else [COMMA] + DumpElems(tail, ascii);
      FiniteStep(elems, d);
      ElemTreesStep(elems, ascii, i);
      AtAppend(s, i, Dump(head, ascii), rest);
      DumpDerives(s, i, head, ascii, d);
      ValueStart(s, Tree(head, ascii, i), d);
      NoGap(s, i);
      if tail.NoElems? {
        NoGap(s, end);
      } else {
        AtAppend(s, end, [COMMA], DumpElems(tail, ascii));
        OneAt(s, end, COMMA);
        NoGap(s, end);
        ElemsDerive(s, end + 1, tail, j, ascii, d);
      }
      FirstItem(s, Tree(head, ascii, i), ElemTrees(tail, ascii, end + 1), i, j, d);
  }

  lemma {:induction false} MembersDerive(s: Text, i: nat, members: PyMembers, j: nat, ascii: bool, d: Dialect)
    requires At(s, i, DumpMembers(members, ascii)) && j == i + |DumpMembers(members, ascii)| && j < |s| && !IsWs(s[j])
    requires d == Strict ==> FiniteMembers(members)
    ensures DerivesPairs(s, MemberTrees(members, ascii, i), i, j, d)
    decreases members
  {
    hide Derives, At, WsEnd, Tree, Dump, DumpString, ReloadedString, DerivesKey, Spells, FiniteMembers, TokenValue;
    match members
    case NoMembers => NoGap(s, i);
    case PyMembers(key, value, tail) =>
      var colon := i + |DumpString(key, ascii)|;
      var end := colon + 1 + |Dump(value, ascii)|;
      var rest := if tail.NoMembers? then [] else [COMMA] + DumpMembers(tail, ascii);
      FiniteMember(members, d);
      MemberDumpedAt(s, i, key, value, rest, ascii);
      DumpDerives(s, colon + 1, value, ascii, d);
      MemberKey(s, i, key, Tree(value, ascii, colon + 1), ascii, d);
      if tail.NoMembers? {
        NoGap(s, end);
      } else {
        AtAppend(s, end, [COMMA], DumpMembers(tail, ascii));
        OneAt(s, end, COMMA);
        NoGap(s, end);
        MembersDerive(s, end + 1, tail, j, ascii, d);
      }
  }

  lemma FiniteMember(members: PyMembers, d: Dialect)
    requires members.PyMembers? && (d == Strict ==> FiniteMembers(members))
    ensures Spells(members.value, d) && (d == Strict ==> FiniteMembers(members.tail))
  {
  }

  /** The parts of a dumped member. */
  lemma MemberDumpedAt(s: Text, i: nat, key: Text, value: Py, rest: Text, ascii: bool)
    requires At(s, i, DumpString(key, ascii) + ([COLON] + (Dump(value, ascii) + rest)))
    ensures var colon := i + |DumpString(key, ascii)|;
            && At(s, i, DumpString(key, ascii)) && colon < |s| && s[colon] == COLON
            && At(s, colon + 1, Dump(value, ascii)) && At(s, colon + 1 + |Dump(value, ascii)|, rest)
  {
    hide At, DumpString, Dump;
    var colon := i + |DumpString(key, ascii)|;
    AtAppend(s, i, DumpString(key, ascii), [COLON] + (Dump(value, ascii) + rest));
    AtAppend(s, colon, [COLON], Dump(value, ascii) + rest);
    OneAt(s, colon, COLON);
    AtAppend(s, colon + 1, Dump(value, ascii), rest);
  }

  lemma MemberKey(s: Text, i: nat, key: Text, child: Node, ascii: bool, d: Dialect)
    requires var colon := i + |DumpString(key, ascii)|;
             At(s, i, DumpString(key, ascii)) && colon < |s| && s[colon] == COLON && child.start == colon + 1
    requires Derives(s, child, d)
    ensures DerivesKey(s, ReloadedString(key, ascii), i, i + |DumpString(key, ascii)|, i, child.start)
  {
    hide Derives, At, DumpString, ReloadedString, StringToken, WsEnd;
    var colon := i + |DumpString(key, ascii)|;
    DumpedString(s, i, key, ascii);
    ValueStart(s, child, d);
    NoGap(s, i);
    NoGap(s, colon);
    NoGap(s, colon + 1);
  }

  /** What `json.loads` reads back from `json.dumps`, whatever the value. */
  lemma DumpsLoads(p: Py, ascii: bool)
    ensures ParseDocument(Dump(p, ascii), Lenient) == Ok(Tree(p, ascii, 0))
    ensures ValueOf(Tree(p, ascii, 0)) == Reloaded(p, ascii)
  {
    hide Derives, At, ParseValue, Dump;
    var t := Dump(p, ascii);
    AtSlice(t, 0, |t|);
    assert t[0..|t|] == t;
    DumpDerives(t, 0, p, ascii, Lenient);
    ValueStart(t, Tree(p, ascii, 0), Lenient);
    NoGap(t, 0);
    NoGap(t, |t|);
    ParserIsExact(t, Tree(p, ascii, 0), Lenient);
    TreeValue(p, ascii, 0);
  }

  // ---- Faithful values ------------------------------------------------------------------------------------

  /** A Python value: dictionary keys are distinct. */
  predicate IsPython(p: Py) {
    match p
    case PyList(elems) => PythonElems(elems)
    case PyDict(members) => PythonMembers(members)
    case _ => true
  }

  predicate PythonElems(elems: PyElems) {
    match elems case NoElems => true case PyElems(head, tail) => IsPython(head) && PythonElems(tail)
  }

  predicate PythonMembers(members: PyMembers) {
    match members
    case NoMembers => true
    case PyMembers(key, value, tail) =>
      IsPython(value) && DictGet(MemberValues(tail), key).None? && PythonMembers(tail)
  }

  lemma FaithfulStringKept(s: Text, ascii: bool)
    ensures FaithfulString(s, ascii) <==> ReloadedString(s, ascii) == s
  {
    JoinPairsShrinks(s);
  }

  lemma {:induction false} FaithfulKept(p: Py, ascii: bool)
    requires IsPython(p) && Faithful(p, ascii)
    ensures Reloaded(p, ascii) == PyValue(p) && Plain(PyValue(p))
    decreases p
  {
    match p
    case PyStr(s) => FaithfulStringKept(s, ascii);
    case PyList(elems) => FaithfulElemsKept(elems, ascii);
    case PyDict(members) =>
      NothingApart(MemberValues(members));
      FaithfulMembersKept(NoEntries, members, ascii);
      NothingFirst(MemberValues(members));
    case _ =>
  }

  lemma {:induction false} FaithfulElemsKept(elems: PyElems, ascii: bool)
    requires PythonElems(elems) && FaithfulElems(elems, ascii)
    ensures ReloadedElems(elems, ascii) == ElemValues(elems) && PlainList(ElemValues(elems))
    decreases elems
  {
    if elems.PyElems? {
      FaithfulKept(elems.head, ascii);
      FaithfulElemsKept(elems.tail, ascii);
    }
  }

  function Concat(x: Entries, y: Entries): Entries {
    match x case NoEntries => y case Entries(key, v, tail) => Entries(key, v, Concat(tail, y))
  }

  lemma NothingFirst(y: Entries)
    ensures Concat(NoEntries, y) == y
  {
  }

  lemma {:induction false} NewKeyLast(x: Entries, key: Text, v: Value, y: Entries)
    requires DictGet(x, key).None?
    ensures DictSet(x, key, v) == Concat(x, Entries(key, v, NoEntries))
    ensures Concat(DictSet(x, key, v), y) == Concat(x, Entries(key, v, y))
    decreases x
  {
    if x.Entries? {
      NewKeyLast(x.tail, key, v, y);
    }
  }

  predicate Apart(x: Entries, y: Entries) {
    match y case NoEntries => true case Entries(key, _, tail) => DictGet(x, key).None? && Apart(x, tail)
  }

  lemma NothingApart(y: Entries)
    ensures Apart(NoEntries, y)
  {
  }

  lemma {:induction false} StillApart(x: Entries, key: Text, v: Value, y: Entries)
    requires Apart(x, y) && DictGet(y, key).None?
    ensures Apart(DictSet(x, key, v), y)
    decreases y
  {
    if y.Entries? {
      DictSetGet(x, key, v, y.key);
      StillApart(x, key, v, y.tail);
    }
  }

  lemma {:induction false} FaithfulMembersKept(soFar: Entries, members: PyMembers, ascii: bool)
    requires PythonMembers(members) && FaithfulMembers(members, ascii) && Apart(soFar, MemberValues(members))
    ensures ReloadedMembers(soFar, members, ascii) == Concat(soFar, MemberValues(members))
    ensures PlainEntries(MemberValues(members))
    decreases members
  {
    match members
    case NoMembers => ConcatNothing(soFar);
    case PyMembers(key, value, tail) =>
      FaithfulStringKept(key, ascii);
      FaithfulKept(value, ascii);
      NewKeyLast(soFar, key, PyValue(value), MemberValues(tail));
      StillApart(soFar, key, PyValue(value), MemberValues(tail));
      FaithfulMembersKept(DictSet(soFar, key, PyValue(value)), tail, ascii);
  }

  lemma ConcatNothing(x: Entries)
    ensures Concat(x, NoEntries) == x
  {
  }
}
