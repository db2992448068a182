/**
 `insert_object_properties`: adding members to objects in place, behind a re-parse gate.

 Each insertion as the source makes it, the value it is expected to give, and which values survive being
 written and read.
 */
module JsonInsert {
  import opened Text
  import opened JsonStrings
  import opened JsonGrammar
  import opened JsonParser
  import opened JsonPaths
  import opened JsonValues
  import opened JsonLocality
  import opened JsonDumps
  import opened JsonMembers
  import opened JsonMemberTree
  import opened JsonSurgery

  /**
   `(object_path, key, value)`.  The value is a value: a container that the source shares between two insertions, or
   that it changes before the same list is used again, is not captured.
   */
  datatype Insertion = Insertion(path: seq<Step>, key: Text, value: Py)

  // ---- One insertion --------------------------------------------------------------------------------

  function CountKey(pairs: Pairs, key: Text): nat {
    match pairs case NoPairs => 0 case Pairs(k, _, _, _, tail) => (if k == key then 1 else 0) + CountKey(tail, key)
  }

  lemma CountedIsFound(pairs: Pairs, key: Text)
    ensures CountKey(pairs, key) > 0 <==> Lookup(pairs, key).Some?
  {
  }

  /** Equal in Python, and of the same type. */
  predicate SameAs(was: Value, p: Py) {
    if IsScalar(p) then was == PyValue(p) && !p.PyNaN?
    else ((was.List? && p.PyList?) || (was.Dict? && p.PyDict?)) && PyEqual(was, PyValue(p))
  }

  /** The single member with this key already has this value. */
  predicate Present(n: Node, ins: Insertion)
    requires n.Object?
  {
    && CountKey(n.pairs, ins.key) == 1 && Lookup(n.pairs, ins.key).Some?
    && SameAs(ValueOf(Lookup(n.pairs, ins.key).value), ins.value)
  }

  function InsertInto(s: Text, n: Node, ins: Insertion): Result<Text>
    requires n.Object? && 0 < n.end <= |s|
  {
    if CountKey(n.pairs, ins.key) > 0 then if Present(n, ins) then Ok(s) else Err(SurgicalError)
    else Ok(Inserted(s, n, ins.key, ins.value, DetectEnsureAscii(s)))
  }

  lemma NavigatedInside(s: Text, path: seq<Step>)
    requires ParseDocument(s, Strict).Ok? && Navigate(ParseDocument(s, Strict).value, path).Ok?
    ensures 0 < Navigate(ParseDocument(s, Strict).value, path).value.end <= |s|
  {
    hide Derives, ParseDocument, Navigate;
    var root := ParseDocument(s, Strict).value;
    ParserIsExact(s, root, Strict);
    TargetDerives(s, root, path, Strict);
  }

  function InsertOne(s: Text, ins: Insertion): Result<Text> {
    match ParseDocument(s, Strict)
    case Err(error) => Err(error)
    case Ok(root) =>
      match Navigate(root, ins.path)
      case Err(error) => Err(error)
      case Ok(n) =>
        if !n.Object? then Err(SurgicalError)
        else
          NavigatedInside(s, ins.path);
          InsertInto(s, n, ins)
  }

  function InsertAll(raw: Text, edits: seq<Insertion>): Result<Text> {
    if edits == [] then Ok(raw)
    else
      match InsertAll(raw, edits[..|edits| - 1])
      case Err(error) => Err(error)
      case Ok(s) => InsertOne(s, edits[|edits| - 1])
  }

  // ---- The expected value ------------------------------------------------------------------------------

  /** `target[key] = value` at the end of the path; `Err` where Python raises. */
  function ExpectOne(v: Value, ins: Insertion): Result<Value> {
    match GetAt(v, ins.path)
    case None => Err(ValueError)
    case Some(target) =>
      if !target.Dict? then Err(ValueError)
      else
        var found := DictGet(target.entries, ins.key);
        if found.Some? && !SameAs(found.value, ins.value) then Err(SurgicalError)
        else
          match PutAt(v, ins.path, Dict(DictSet(target.entries, ins.key, PyValue(ins.value))))
          case None => Err(ValueError)
          case Some(w) => Ok(w)
  }

  function ExpectAll(v: Value, edits: seq<Insertion>): Result<Value> {
    if edits == [] then Ok(v)
    else
      match ExpectAll(v, edits[..|edits| - 1])
      case Err(error) => Err(error)
      case Ok(w) => ExpectOne(w, edits[|edits| - 1])
  }

  // ---- A fresh member: text, tree and value --------------------------------------------------------------

  /** The insertion names an object without that key. */
  predicate Adds(root: Node, ins: Insertion) {
    && Navigate(root, ins.path).Ok? && Navigate(root, ins.path).value.Object?
    && CountKey(Navigate(root, ins.path).value.pairs, ins.key) == 0
  }

  /** The addressed object's dictionary with one more entry. */
  function WithEntry(v: Value, path: seq<Step>, key: Text, x: Value): Option<Value> {
    match GetAt(v, path)
    case None => None
    case Some(target) => if target.Dict? then PutAt(v, path, Dict(DictSet(target.entries, key, x))) else None
  }

  lemma AddedValue(s: Text, root: Node, ins: Insertion, ascii: bool, d: Dialect)
    requires DerivesDocument(s, root, d) && Adds(root, ins) && Spells(ins.value, d)
    ensures var n := Navigate(root, ins.path).value;
            && Derives(s, n, d) && n.start < n.end <= |s| && Proper(EditAt(s, n, ins.key, ins.value, ascii))
            && DerivesDocument(Inserted(s, n, ins.key, ins.value, ascii),
                               Move(root, EditAt(s, n, ins.key, ins.value, ascii)), d)
            && WithEntry(ValueOf(root), ins.path, ReloadedString(ins.key, ascii), Reloaded(ins.value, ascii)) ==
               Some(ValueOf(Move(root, EditAt(s, n, ins.key, ins.value, ascii))))
  {
    hide Derives, Navigate, Move, Extended, ReloadedString, Reloaded, GetAt, SetAt, Spells, WsEnd, ChunkText;
    DocumentExtended(s, root, ins.path, ins.key, ins.value, ascii, d);
    var n := Navigate(root, ins.path).value;
    var e := EditAt(s, n, ins.key, ins.value, ascii);
    ExtendedSpan(s, n, ins.key, ins.value, ascii);
    MovedValue(s, root, ins.path, e, d);
    ExtendedValue(s, n, ins.key, ins.value, ascii);
    NavigatedValue(root, ins.path);
    ObjectValue(n);
  }

  lemma ObjectValue(n: Node)
    requires n.Object?
    ensures ValueOf(n) == Dict(EntriesOf(NoEntries, n.pairs))
  {
  }

  lemma {:induction false} NoSuchEntry(root: Node, ins: Insertion)
    requires Adds(root, ins)
    ensures var target := GetAt(ValueOf(root), ins.path);
            target.Some? && target.value.Dict? && DictGet(target.value.entries, ins.key).None?
  {
    hide ValueOf, GetAt, Navigate;
    var n := Navigate(root, ins.path).value;
    NavigatedValue(root, ins.path);
    ObjectValue(n);
    CountedIsFound(n.pairs, ins.key);
    EntriesGet(NoEntries, n.pairs, ins.key);
  }

  // ---- Values that do not survive -------------------------------------------------------------------------

  lemma {:induction false} JoinedHasNoPair(s: Text)
    ensures !HasPair(JoinPairs(s))
    decreases |s|
  {
    if |s| >= 2 {
      var k := if IsHigh(s[0]) && IsLow(s[1]) then 2 else 1;
      JoinedHasNoPair(s[k..]);
      var rest := JoinPairs(s[k..]);
      var first := JoinPairs(s)[0];
      assert JoinPairs(s) == [first] + rest;
      if k == 1 && rest != [] {
        FirstJoined(s[1..]);
      }
      forall m | 0 <= m < |JoinPairs(s)| - 1 ensures !(IsHigh(JoinPairs(s)[m]) && IsLow(JoinPairs(s)[m + 1])) {
        if m > 0 {
          assert JoinPairs(s)[m] == rest[m - 1] && JoinPairs(s)[m + 1] == rest[m - 1 + 1];
        }
      }
    }
  }

  lemma FirstJoined(s: Text)
    requires s != []
    ensures JoinPairs(s) != [] && (IsLow(JoinPairs(s)[0]) ==> IsLow(s[0]))
  {
  }

  lemma SizeSet(entries: Entries, key: Text, v: Value)
    ensures Size(DictSet(entries, key, v)) == Size(entries) + if DictGet(entries, key).Some? then 0 else 1
  {
  }

  function Keys(entries: Entries): set<Text> {
    match entries case NoEntries => {} case Entries(key, _, tail) => {key} + Keys(tail)
  }

  predicate Distinct(entries: Entries) {
    match entries case NoEntries => true case Entries(key, _, tail) => DictGet(tail, key).None? && Distinct(tail)
  }

  lemma KeysAreGot(entries: Entries, key: Text)
    ensures key in Keys(entries) <==> DictGet(entries, key).Some?
  {
  }

  lemma {:induction false} KeyCount(entries: Entries)
    ensures |Keys(entries)| <= Size(entries)
    ensures Distinct(entries) ==> |Keys(entries)| == Size(entries)
    decreases entries
  {
    if entries.Entries? {
      KeysAreGot(entries.tail, entries.key);
      KeyCount(entries.tail);
    }
  }

  lemma {:induction false} DictSetKeys(entries: Entries, key: Text, v: Value)
    ensures Keys(DictSet(entries, key, v)) == Keys(entries) + {key}
    ensures Distinct(entries) ==> Distinct(DictSet(entries, key, v))
    decreases entries
  {
    if entries.Entries? && entries.key != key {
      DictSetGet(entries.tail, key, v, entries.key);
      DictSetKeys(entries.tail, key, v);
    }
  }

  lemma {:induction false} ReloadedKeys(soFar: Entries, members: PyMembers, ascii: bool)
    requires Distinct(soFar)
    ensures var r := ReloadedMembers(soFar, members, ascii);
            Distinct(r) && forall key :: key in Keys(r) ==> key in Keys(soFar) || !ascii || !HasPair(key)
    decreases members
  {
    if members.PyMembers? {
      var key, v := ReloadedString(members.key, ascii), Reloaded(members.value, ascii);
      JoinedHasNoPair(members.key);
      DictSetKeys(soFar, key, v);
      ReloadedKeys(DictSet(soFar, key, v), members.tail, ascii);
    }
  }

  lemma {:induction false} EqualKeys(x: Entries, y: Entries)
    requires PyEqualEntries(x, y)
    ensures Keys(x) <= Keys(y)
    decreases x
  {
    if x.Entries? {
      KeysAreGot(y, x.key);
      EqualKeys(x.tail, y);
    }
  }

  lemma SubsetOfSameSize(x: set<Text>, y: set<Text>)
    requires x <= y && |x| == |y|
    ensures x == y
  {
    if k :| k in y && k !in x {
      assert x <= y - {k};
      SubsetIsSmaller(x, y - {k});
    }
  }

  lemma SubsetIsSmaller(x: set<Text>, y: set<Text>)
    requires x <= y
    ensures |x| <= |y|
  {
    assert y == x + (y - x);
  }

  predicate FaithfulKeys(members: PyMembers, ascii: bool) {
    match members
    case NoMembers => true
    case PyMembers(key, _, tail) => FaithfulString(key, ascii) && FaithfulKeys(tail, ascii)
  }

  lemma {:induction false} UnfaithfulKey(members: PyMembers, ascii: bool) returns (key: Text)
    requires !FaithfulKeys(members, ascii)
    ensures ascii && HasPair(key) && key in Keys(MemberValues(members))
    decreases members
  {
    if FaithfulString(members.key, ascii) {
      key := UnfaithfulKey(members.tail, ascii);
    } else {
      key := members.key;
    }
  }

  lemma {:induction false} PythonIsDistinct(members: PyMembers)
    requires PythonMembers(members)
    ensures Distinct(MemberValues(members))
    decreases members
  {
    if members.PyMembers? {
      PythonIsDistinct(members.tail);
    }
  }

  /** With keys intact, each reloaded member stands where the dumped one stood. */
  lemma {:induction false} MemberReloaded(soFar: Entries, members: PyMembers, ascii: bool, key: Text)
    requires PythonMembers(members) && FaithfulKeys(members, ascii)
    ensures DictGet(MemberValues(members), key).None? ==>
              DictGet(ReloadedMembers(soFar, members, ascii), key) == DictGet(soFar, key)
    decreases members
  {
    if members.PyMembers? {
      FaithfulStringKept(members.key, ascii);
      var v := Reloaded(members.value, ascii);
      DictSetGet(soFar, members.key, v, key);
      MemberReloaded(DictSet(soFar, members.key, v), members.tail, ascii, key);
    }
  }

  /** A value that is not faithful does not compare equal once reloaded. */
  lemma {:induction false} UnfaithfulDiffers(p: Py, ascii: bool)
    requires IsPython(p) && !Faithful(p, ascii)
    ensures !PyEqual(Reloaded(p, ascii), PyValue(p))
    decreases p
  {
    match p
    case PyStr(s) => FaithfulStringKept(s, ascii);
    case PyList(elems) => UnfaithfulElems(elems, ascii);
    case PyDict(members) =>
      if FaithfulKeys(members, ascii) {
        UnfaithfulMember(NoEntries, members, ascii, MemberValues(members));
      } else {
        UnfaithfulKeys(members, ascii);
      }
    case _ =>
  }

  lemma {:induction false} UnfaithfulElems(elems: PyElems, ascii: bool)
    requires PythonElems(elems) && !FaithfulElems(elems, ascii)
    ensures !PyEqualLists(ReloadedElems(elems, ascii), ElemValues(elems))
    decreases elems
  {
    if !Faithful(elems.head, ascii) {
      UnfaithfulDiffers(elems.head, ascii);
    } else {
      UnfaithfulElems(elems.tail, ascii);
    }
  }

  lemma NothingHasKeys()
    ensures Keys(NoEntries) == {} && Distinct(NoEntries)
  {
  }

  lemma {:induction false} UnfaithfulKeys(members: PyMembers, ascii: bool)
    requires PythonMembers(members) && !FaithfulKeys(members, ascii)
    ensures !PyEqual(Reloaded(PyDict(members), ascii), PyValue(PyDict(members)))
  {
    hide ReloadedMembers, MemberValues, PyEqualEntries, Keys, FaithfulKeys, PythonMembers, HasPair;
    NothingHasKeys();
    var x, y := ReloadedMembers(NoEntries, members, ascii), MemberValues(members);
    var key := UnfaithfulKey(members, ascii);
    ReloadedKeys(NoEntries, members, ascii);
    PythonIsDistinct(members);
    KeyCount(x);
    KeyCount(y);
    if Size(x) == Size(y) && PyEqualEntries(x, y) {
      EqualKeys(x, y);
      SubsetOfSameSize(Keys(x), Keys(y));
    }
  }

  lemma {:induction false} UnfaithfulMember(soFar: Entries, members: PyMembers, ascii: bool, all: Entries)
    requires PythonMembers(members) && FaithfulKeys(members, ascii) && !FaithfulMembers(members, ascii)
    requires forall key :: DictGet(MemberValues(members), key).Some? ==>
               DictGet(all, key) == DictGet(MemberValues(members), key)
    ensures !PyEqualEntries(ReloadedMembers(soFar, members, ascii), all)
    decreases members
  {
    FaithfulStringKept(members.key, ascii);
    var key, v := members.key, Reloaded(members.value, ascii);
    var x := ReloadedMembers(soFar, members, ascii);
    assert DictGet(all, key) == Some(PyValue(members.value));
    if !Faithful(members.value, ascii) {
      UnfaithfulDiffers(members.value, ascii);
      DictSetGet(soFar, key, v, key);
      MemberReloaded(DictSet(soFar, key, v), members.tail, ascii, key);
      if PyEqualEntries(x, all) {
        EqualEntriesAgree(x, all, key);
      }
    } else {
      forall other | DictGet(MemberValues(members.tail), other).Some?
        ensures DictGet(all, other) == DictGet(MemberValues(members.tail), other)
      {
        assert DictGet(MemberValues(members), other) == DictGet(MemberValues(members.tail), other);
      }
      UnfaithfulMember(DictSet(soFar, key, v), members.tail, ascii, all);
    }
  }
}
