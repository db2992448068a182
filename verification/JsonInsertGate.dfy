/** The re-parse gate of `insert_object_properties`, exactly, for one new member. */
module JsonInsertGate {
  import opened Text
  import opened JsonGrammar
  import opened JsonParser
  import opened JsonPaths
  import opened JsonValues
  import opened JsonLocality
  import opened JsonDumps
  import opened JsonMemberTree
  import opened JsonSplice
  import opened JsonSpliceGate
  import opened JsonInsert

  // ---- The gate for one insertion ----------------------------------------------------------------------

  lemma {:induction false} SetNthGet(values: Values, k: nat, x: Value)
    requires k < Length(values)
    ensures Length(SetNth(values, k, x)) == Length(values) && NthValue(SetNth(values, k, x), k) == x
    decreases values
  {
    if k > 0 {
      SetNthGet(values.tail, k - 1, x);
    }
  }

  lemma PutGet(v: Value, step: Step, x: Value)
    requires Put(v, step, x).Some?
    ensures Get(Put(v, step, x).value, step) == Some(x)
  {
    match v
    case List(elems) => SetNthGet(elems, ListIndex(step.index, Length(elems)).value, x);
    case Dict(entries) => DictSetGet(entries, step.key, x, step.key);
  }

  lemma {:induction false} PutAtGet(v: Value, path: seq<Step>, x: Value)
    requires PutAt(v, path, x).Some?
    ensures GetAt(PutAt(v, path, x).value, path) == Some(x)
    decreases |path|
  {
    hide Get, Put;
    if path != [] {
      var child := if |path| == 1 then x else SetAt(Get(v, path[0]).value, path[1..], x).value;
      PutGet(v, path[0], child);
      if |path| > 1 {
        PutAtGet(Get(v, path[0]).value, path[1..], x);
      }
    }
  }

  lemma {:induction false} SetNthPlain(values: Values, k: nat, x: Value)
    requires k < Length(values) && PlainList(values)
    ensures Plain(NthValue(values, k)) && (Plain(x) ==> PlainList(SetNth(values, k, x)))
    decreases values
  {
    if k > 0 {
      SetNthPlain(values.tail, k - 1, x);
    }
  }

  lemma {:induction false} DictGetPlain(entries: Entries, key: Text)
    requires PlainEntries(entries) && DictGet(entries, key).Some?
    ensures Plain(DictGet(entries, key).value)
    decreases entries
  {
    if entries.key != key {
      DictGetPlain(entries.tail, key);
    }
  }

  lemma GetPlain(v: Value, step: Step)
    requires Plain(v) && Get(v, step).Some?
    ensures Plain(Get(v, step).value)
  {
    match v
    case List(elems) => SetNthPlain(elems, ListIndex(step.index, Length(elems)).value, v);
    case Dict(entries) => DictGetPlain(entries, step.key);
  }

  lemma PutPlain(v: Value, step: Step, x: Value)
    requires Plain(v) && Plain(x) && Put(v, step, x).Some?
    ensures Plain(Put(v, step, x).value)
  {
    match v
    case List(elems) => SetNthPlain(elems, ListIndex(step.index, Length(elems)).value, x);
    case Dict(entries) => DictSetPlain(entries, step.key, x);
  }

  lemma {:induction false} PutAtPlain(v: Value, path: seq<Step>, x: Value)
    requires Plain(v) && Plain(x) && PutAt(v, path, x).Some?
    ensures Plain(PutAt(v, path, x).value)
    decreases |path|
  {
    hide Get, Put, Plain;
    if |path| == 1 {
      PutPlain(v, path[0], x);
    } else if |path| > 1 {
      var child := Get(v, path[0]).value;
      GetPlain(v, path[0]);
      PutAtPlain(child, path[1..], x);
      PutPlain(v, path[0], SetAt(child, path[1..], x).value);
    }
  }

  lemma {:induction false} GetAtPlain(v: Value, path: seq<Step>)
    requires Plain(v) && GetAt(v, path).Some?
    ensures Plain(GetAt(v, path).value)
    decreases |path|
  {
    hide Get, Plain;
    if path != [] {
      GetPlain(v, path[0]);
      GetAtPlain(Get(v, path[0]).value, path[1..]);
    }
  }

  predicate FaithfulInsertion(ins: Insertion, ascii: bool) {
    FaithfulString(ins.key, ascii) && Faithful(ins.value, ascii)
  }

  /** Two ways to add an entry to the same dictionary compare equal only if key and value do. */
  lemma EntriesCompared(entries: Entries, key: Text, x: Value, key2: Text, y: Value)
    requires DictGet(entries, key2).None? && PyEqual(Dict(DictSet(entries, key, x)), Dict(DictSet(entries, key2, y)))
    ensures key == key2 && PyEqual(x, y)
  {
    var a, b := DictSet(entries, key, x), DictSet(entries, key2, y);
    SizeSet(entries, key, x);
    SizeSet(entries, key2, y);
    DictSetGet(entries, key, x, key);
    DictSetGet(entries, key2, y, key);
    EqualEntriesAgree(a, b, key);
  }

  /** What the text reloads to, and what the gate expects. */
  lemma InsertionReloads(s: Text, root: Node, ins: Insertion, ascii: bool)
    requires DerivesDocument(s, root, Strict) && Adds(root, ins)
    ensures var n := Navigate(root, ins.path).value;
            && 0 < n.end <= |s| && Loads(Inserted(s, n, ins.key, ins.value, ascii)).Ok?
            && WithEntry(ValueOf(root), ins.path, ReloadedString(ins.key, ascii), Reloaded(ins.value, ascii)) ==
               Some(Loads(Inserted(s, n, ins.key, ins.value, ascii)).value)
    ensures Loads(s) == Ok(ValueOf(root))
  {
    hide Derives, Navigate, Move, ValueOf, ReloadedString, Reloaded, ParseValue, WsEnd, WithEntry, Inserted, Spells;
    StrictDerives(s, root);
    ParserIsExact(s, root, Lenient);
    Lenience(ins.value);
    AddedValue(s, root, ins, ascii, Lenient);
    var n := Navigate(root, ins.path).value;
    ParserIsExact(Inserted(s, n, ins.key, ins.value, ascii), Move(root, EditAt(s, n, ins.key, ins.value, ascii)),
        Lenient);
  }

  lemma Lenience(p: Py)
    ensures Spells(p, Lenient)
  {
  }

  lemma Expected(root: Node, ins: Insertion)
    requires Adds(root, ins)
    ensures ExpectOne(ValueOf(root), ins) ==
            match WithEntry(ValueOf(root), ins.path, ins.key, PyValue(ins.value))
            case None => Err(ValueError) case Some(w) => Ok(w)
  {
    hide ValueOf, GetAt, SetAt, Navigate, SameAs;
    NoSuchEntry(root, ins);
  }

  /** Assigning along a path that can be assigned once succeeds for any value. */
  lemma {:induction false} PutAtSome(v: Value, path: seq<Step>, x: Value, y: Value)
    requires PutAt(v, path, x).Some?
    ensures PutAt(v, path, y).Some?
    decreases |path|
  {
    hide Get;
    if |path| > 1 {
      PutAtSome(Get(v, path[0]).value, path[1..], x, y);
    }
  }

  /**
   The gate, exactly, for one new member: the text always parses, and it compares equal to the expected
   value if and only if the key and the value survive `json.dumps`; and then it is that value.
   */
  lemma InsertionGateIsExact(s: Text, root: Node, ins: Insertion, ascii: bool)
    requires DerivesDocument(s, root, Strict) && Adds(root, ins) && IsPython(ins.value)
    ensures var n := Navigate(root, ins.path).value;
            && 0 < n.end <= |s| && Loads(Inserted(s, n, ins.key, ins.value, ascii)).Ok?
            && ExpectOne(ValueOf(root), ins).Ok?
            && var got := Loads(Inserted(s, n, ins.key, ins.value, ascii)).value;
               var expected := ExpectOne(ValueOf(root), ins).value;
            && (PyEqual(got, expected) <==> FaithfulInsertion(ins, ascii))
            && (FaithfulInsertion(ins, ascii) ==> got == expected)
  {
    hide Derives, Navigate, ValueOf, ReloadedString, Reloaded, PyValue, WsEnd, Loads, Inserted, PyEqual, Faithful,
      FaithfulString, GetAt, SetAt, ExpectOne, IsPython, Plain, Adds, DerivesDocument, DictSet;
    InsertionReloads(s, root, ins, ascii);
    Expected(root, ins);
    NoSuchEntry(root, ins);
    var v := ValueOf(root);
    var target := GetAt(v, ins.path).value;
    var key, x, y := ReloadedString(ins.key, ascii), Reloaded(ins.value, ascii), PyValue(ins.value);
    var a, b := Dict(DictSet(target.entries, key, x)), Dict(DictSet(target.entries, ins.key, y));
    PutAtSome(v, ins.path, a, b);
    FaithfulStringKept(ins.key, ascii);
    var got, expected := PutAt(v, ins.path, a).value, PutAt(v, ins.path, b).value;
    if FaithfulInsertion(ins, ascii) {
      FaithfulKept(ins.value, ascii);
      ExpectedIsPlain(s, root, ins, target, b);
      PlainEqualsItself(expected);
    } else if PyEqual(got, expected) {
      PutAtGet(v, ins.path, a);
      PutAtGet(v, ins.path, b);
      EqualValuesAgree(got, expected, ins.path);
      EntriesCompared(target.entries, key, x, ins.key, y);
      UnfaithfulDiffers(ins.value, ascii);
    }
  }

  lemma ExpectedIsPlain(s: Text, root: Node, ins: Insertion, target: Value, b: Value)
    requires DerivesDocument(s, root, Strict) && Plain(PyValue(ins.value))
    requires GetAt(ValueOf(root), ins.path) == Some(target) && target.Dict?
    requires b == Dict(DictSet(target.entries, ins.key, PyValue(ins.value)))
    requires PutAt(ValueOf(root), ins.path, b).Some?
    ensures Plain(PutAt(ValueOf(root), ins.path, b).value)
  {
    hide Derives, ValueOf, PyValue, WsEnd, GetAt, SetAt, PutAt, PlainTree;
    StrictPlain(s, root);
    PlainTreeValue(root);
    GetAtPlain(ValueOf(root), ins.path);
    DictSetPlain(target.entries, ins.key, PyValue(ins.value));
    PutAtPlain(ValueOf(root), ins.path, b);
  }
}
