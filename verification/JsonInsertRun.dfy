/**
 A list of insertions, one after the other: the trees they lead through, the value they are expected to
 give, and the gate at the end, which never refuses a run of ordinary ones.
 */
module JsonInsertRun {
  import opened Text
  import opened JsonGrammar
  import opened JsonParser
  import opened JsonPaths
  import opened JsonValues
  import opened JsonLocality
  import opened JsonDumps
  import opened JsonMemberTree
  import opened JsonSplice
  import opened JsonSpliceGate
  import opened JsonSurgery
  import opened JsonInsert
  import opened JsonInsertGate

  /** A finite value under a key, with no surrogate pair spelled apart anywhere. */
  predicate Ordinary(ins: Insertion) {
    IsPython(ins.value) && Finite(ins.value) && FaithfulInsertion(ins, true)
  }

  predicate AllOrdinary(edits: seq<Insertion>) {
    forall k :: 0 <= k < |edits| ==> Ordinary(edits[k])
  }

  // ---- The tree after an insertion ------------------------------------------------------------------

  function RootAfter(s: Text, root: Node, ins: Insertion): Node
    requires DerivesDocument(s, root, Strict)
  {
    if Adds(root, ins) && Ordinary(ins) then
      var n := Navigate(root, ins.path).value;
      AddedValue(s, root, ins, DetectEnsureAscii(s), Strict);
      Move(root, EditAt(s, n, ins.key, ins.value, DetectEnsureAscii(s)))
    else root
  }

  /** What one successful insertion did. */
  lemma StepText(s: Text, root: Node, ins: Insertion)
    requires DerivesDocument(s, root, Strict) && InsertOne(s, ins).Ok?
    ensures Navigate(root, ins.path).Ok?
    ensures var n := Navigate(root, ins.path).value;
            && n.Object? && 0 < n.end <= |s|
            && if Adds(root, ins) then InsertOne(s, ins).value ==
               Inserted(s, n, ins.key, ins.value, DetectEnsureAscii(s))
               else Present(n, ins) && InsertOne(s, ins).value == s
  {
    hide Derives, Navigate, ParseValue, WsEnd, Inserted, DetectEnsureAscii, SameAs, Lookup, CountKey;
    ParserIsExact(s, root, Strict);
    NavigatedInside(s, ins.path);
  }

  /** Assigning what is already there. */
  lemma SamePutAt(v: Value, path: seq<Step>)
    requires GetAt(v, path).Some?
    ensures PutAt(v, path, GetAt(v, path).value) == Some(v)
  {
    hide Get, Put;
    if path != [] {
      SetAtSame(v, path);
    }
  }

  lemma {:induction false} FaithfulEitherWay(p: Py, ascii: bool)
    requires Faithful(p, true)
    ensures Faithful(p, ascii)
    decreases p
  {
    match p
    case PyList(elems) => FaithfulElemsEitherWay(elems, ascii);
    case PyDict(members) => FaithfulMembersEitherWay(members, ascii);
    case _ =>
  }

  lemma {:induction false} FaithfulElemsEitherWay(elems: PyElems, ascii: bool)
    requires FaithfulElems(elems, true)
    ensures FaithfulElems(elems, ascii)
    decreases elems
  {
    if elems.PyElems? {
      FaithfulEitherWay(elems.head, ascii);
      FaithfulElemsEitherWay(elems.tail, ascii);
    }
  }

  lemma {:induction false} FaithfulMembersEitherWay(members: PyMembers, ascii: bool)
    requires FaithfulMembers(members, true)
    ensures FaithfulMembers(members, ascii)
    decreases members
  {
    if members.PyMembers? {
      FaithfulEitherWay(members.value, ascii);
      FaithfulMembersEitherWay(members.tail, ascii);
    }
  }

  lemma OrdinaryKept(ins: Insertion, ascii: bool)
    requires Ordinary(ins)
    ensures ReloadedString(ins.key, ascii) == ins.key && Reloaded(ins.value, ascii) == PyValue(ins.value)
    ensures Plain(PyValue(ins.value)) && PyEqual(PyValue(ins.value), PyValue(ins.value))
  {
    hide Reloaded, PyValue, Plain, PyEqual, Faithful, IsPython, Finite;
    FaithfulStringKept(ins.key, ascii);
    FaithfulEitherWay(ins.value, ascii);
    FaithfulKept(ins.value, ascii);
    PlainEqualsItself(PyValue(ins.value));
  }

  /** The object at the path has exactly one member with the key. */
  predicate HasMember(root: Node, path: seq<Step>, key: Text) {
    && Navigate(root, path).Ok? && Navigate(root, path).value.Object?
    && CountKey(Navigate(root, path).value.pairs, key) == 1 && Lookup(Navigate(root, path).value.pairs, key).Some?
  }

  function MemberAt(root: Node, path: seq<Step>, key: Text): Node
    requires HasMember(root, path, key)
  {
    Lookup(Navigate(root, path).value.pairs, key).value
  }

  /** The member is there once, with exactly the value. */
  predicate Stands(root: Node, ins: Insertion) {
    HasMember(root, ins.path, ins.key) && ValueOf(MemberAt(root, ins.path, ins.key)) == PyValue(ins.value)
  }

  /** A scalar; or a container under a key that its object does not have, or has with exactly this value. */
  predicate Clean(root: Node, ins: Insertion) {
    IsScalar(ins.value) || Adds(root, ins) || Stands(root, ins)
  }

  /** One successful insertion gives the expected tree and the expected value. */
  lemma OrdinaryStep(s: Text, root: Node, ins: Insertion)
    requires DerivesDocument(s, root, Strict) && InsertOne(s, ins).Ok? && Ordinary(ins) && Clean(root, ins)
    ensures DerivesDocument(InsertOne(s, ins).value, RootAfter(s, root, ins), Strict)
    ensures ExpectOne(ValueOf(root), ins) == Ok(ValueOf(RootAfter(s, root, ins)))
  {
    hide Derives, Navigate, ValueOf, InsertOne, Move, WsEnd, Inserted, DetectEnsureAscii, GetAt, SetAt, Reloaded,
      PyValue, ReloadedString, DictSet, DerivesDocument, Adds, IsPython, Finite, FaithfulInsertion, Plain, PyEqual;
    StepText(s, root, ins);
    var ascii := DetectEnsureAscii(s);
    OrdinaryKept(ins, ascii);
    if Adds(root, ins) {
      AddedValue(s, root, ins, ascii, Strict);
      Expected(root, ins);
    } else {
      AlreadyThere(root, ins);
    }
  }

  lemma AlreadyThere(root: Node, ins: Insertion)
    requires Stands(root, ins) && Present(Navigate(root, ins.path).value, ins)
    ensures ExpectOne(ValueOf(root), ins) == Ok(ValueOf(root))
  {
    hide ValueOf, Navigate, GetAt, SetAt;
    var n := Navigate(root, ins.path).value;
    NavigatedValue(root, ins.path);
    ObjectValue(n);
    EntriesGet(NoEntries, n.pairs, ins.key);
    DictSetSame(EntriesOf(NoEntries, n.pairs), ins.key);
    SamePutAt(ValueOf(root), ins.path);
  }

  // ---- A run ------------------------------------------------------------------------------------------------

  /** The tree of the text after the insertions, if they can be made. */
  function TreeAfter(raw: Text, edits: seq<Insertion>): Option<Node> {
    match InsertAll(raw, edits)
    case Err(_) => None
    case Ok(s) => match ParseDocument(s, Strict) case Err(_) => None case Ok(root) => Some(root)
  }

  /** Where its turn comes, every container is new, or there with exactly its value. */
  predicate ContainersFit(raw: Text, edits: seq<Insertion>) {
    forall k :: 0 <= k < |edits| ==>
      IsScalar(edits[k].value) ||
      (TreeAfter(raw, edits[..k]).Some? && Clean(TreeAfter(raw, edits[..k]).value, edits[k]))
  }

  lemma {:induction false} InsertStops(raw: Text, edits: seq<Insertion>, k: nat)
    requires k <= |edits| && InsertAll(raw, edits[..k]).Err?
    ensures InsertAll(raw, edits) == InsertAll(raw, edits[..k])
    decreases |edits|
  {
    hide InsertOne;
    if k < |edits| {
      assert edits[..|edits| - 1][..k] == edits[..k];
      InsertStops(raw, edits[..|edits| - 1], k);
    } else {
      assert edits[..k] == edits;
    }
  }

  /** A run that goes through, of the kind the converter makes. */
  ghost predicate Runs(raw: Text, root: Node, edits: seq<Insertion>) {
    && DerivesDocument(raw, root, Strict) && AllOrdinary(edits) && ContainersFit(raw, edits)
    && InsertAll(raw, edits).Ok?
  }

  lemma PrefixRuns(raw: Text, root: Node, edits: seq<Insertion>, n: nat)
    requires Runs(raw, root, edits) && n <= |edits|
    ensures Runs(raw, root, edits[..n])
  {
    hide InsertAll, Ordinary, DerivesDocument, TreeAfter, Adds;
    if InsertAll(raw, edits[..n]).Err? {
      InsertStops(raw, edits, n);
    }
    assert forall k :: 0 <= k < n ==> edits[..n][..k] == edits[..k] && edits[..n][k] == edits[k];
  }

  /** The text, the tree and the expected value stay together. */
  lemma {:induction false} RunDerives(raw: Text, root: Node, edits: seq<Insertion>)
    requires Runs(raw, root, edits)
    ensures TreeAfter(raw, edits).Some?
    ensures DerivesDocument(InsertAll(raw, edits).value, TreeAfter(raw, edits).value, Strict)
    ensures ExpectAll(ValueOf(root), edits) == Ok(ValueOf(TreeAfter(raw, edits).value))
    decreases |edits|
  {
    hide DerivesDocument, InsertOne, RootAfter, Ordinary, ValueOf, ExpectOne, ParseDocument, Clean;
    if edits == [] {
      ParserIsExact(raw, root, Strict);
    } else {
      var before := edits[..|edits| - 1];
      PrefixRuns(raw, root, edits, |before|);
      RunDerives(raw, root, before);
      StepRuns(raw, root, edits, |before|);
      assert edits[..|before| + 1] == edits;
    }
  }

  /** One more insertion of a run, given what the ones before it led to. */
  lemma StepRuns(raw: Text, root: Node, edits: seq<Insertion>, n: nat)
    requires Runs(raw, root, edits) && n < |edits| && TreeAfter(raw, edits[..n]).Some?
    requires InsertAll(raw, edits[..n]).Ok?
    requires DerivesDocument(InsertAll(raw, edits[..n]).value, TreeAfter(raw, edits[..n]).value, Strict)
    ensures var s, r := InsertAll(raw, edits[..n]).value, TreeAfter(raw, edits[..n]).value;
            && InsertOne(s, edits[n]).Ok? && Clean(r, edits[n])
            && InsertAll(raw, edits[..n + 1]) == InsertOne(s, edits[n])
            && TreeAfter(raw, edits[..n + 1]) == Some(RootAfter(s, r, edits[n]))
            && DerivesDocument(InsertOne(s, edits[n]).value, RootAfter(s, r, edits[n]), Strict)
            && ExpectOne(ValueOf(r), edits[n]) == Ok(ValueOf(RootAfter(s, r, edits[n])))
  {
    hide DerivesDocument, InsertOne, RootAfter, Ordinary, ValueOf, ExpectOne, ParseDocument, Adds;
    PrefixRuns(raw, root, edits, n + 1);
    assert edits[..n + 1][..n] == edits[..n] && edits[..n + 1][n] == edits[n];
    var s, r := InsertAll(raw, edits[..n]).value, TreeAfter(raw, edits[..n]).value;
    OrdinaryStep(s, r, edits[n]);
    ParserIsExact(InsertOne(s, edits[n]).value, RootAfter(s, r, edits[n]), Strict);
  }

  /** The gate passes such a run, and the text says exactly what is expected of it. */
  lemma RunPasses(raw: Text, root: Node, edits: seq<Insertion>)
    requires Runs(raw, root, edits)
    ensures Loads(raw) == Ok(ValueOf(root)) && ExpectAll(ValueOf(root), edits).Ok?
    ensures Loads(InsertAll(raw, edits).value) == ExpectAll(ValueOf(root), edits)
    ensures PyEqual(ExpectAll(ValueOf(root), edits).value, ExpectAll(ValueOf(root), edits).value)
  {
    hide Derives, DerivesDocument, Ordinary, Loads, ValueOf, InsertAll, ExpectAll, TreeAfter, PyEqual, PlainTree,
      Plain, ContainersFit;
    RunDerives(raw, root, edits);
    var s, r := InsertAll(raw, edits).value, TreeAfter(raw, edits).value;
    LoadsStrict(raw, root);
    LoadsStrict(s, r);
    RootDerives(s, r, Strict);
    StrictPlain(s, r);
    PlainTreeValue(r);
    PlainEqualsItself(ValueOf(r));
  }

  /** One insertion of a new member, whatever its value. */
  lemma SingleIsExact(raw: Text, root: Node, ins: Insertion)
    requires DerivesDocument(raw, root, Strict) && Adds(root, ins) && IsPython(ins.value)
    ensures InsertAll(raw, [ins]).Ok? && Loads(raw) == Ok(ValueOf(root))
    ensures Loads(InsertAll(raw, [ins]).value).Ok? && ExpectAll(ValueOf(root), [ins]).Ok?
    ensures PyEqual(Loads(InsertAll(raw, [ins]).value).value, ExpectAll(ValueOf(root), [ins]).value) <==>
            FaithfulInsertion(ins, DetectEnsureAscii(raw))
  {
    hide Derives, Loads, ValueOf, PyEqual, ParseValue, WsEnd, FaithfulInsertion, Navigate, Inserted,
      DetectEnsureAscii, IsPython, ExpectOne, DerivesDocument;
    var ascii := DetectEnsureAscii(raw);
    LoadsStrict(raw, root);
    InsertionGateIsExact(raw, root, ins, ascii);
    Alone(raw, root, ins);
    assert [ins][..0] == [] && ExpectAll(ValueOf(root), []) == Ok(ValueOf(root));
  }

  lemma Alone(raw: Text, root: Node, ins: Insertion)
    requires DerivesDocument(raw, root, Strict) && Adds(root, ins)
    ensures var n := Navigate(root, ins.path).value;
            0 < n.end <= |raw| &&
            InsertAll(raw, [ins]) == Ok(Inserted(raw, n, ins.key, ins.value, DetectEnsureAscii(raw)))
  {
    hide Derives, ParseValue, WsEnd, Navigate, Inserted, DetectEnsureAscii;
    assert [ins][..0] == [];
    ParserIsExact(raw, root, Strict);
    NavigatedInside(raw, ins.path);
  }
}
