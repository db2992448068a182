/**
 Python values going into a text through `json.dumps`, what `json.loads` makes of them again, and Python's
 notion of two values being equal, which is wider than identity: numbers of different types compare by
 value, and dictionaries regardless of order.
 */
module JsonValues {
  import opened Text
  import opened JsonStrings
  import opened JsonNumbers
  import opened JsonGrammar
  import opened JsonPaths

  predicate IsFloatSpelling(t: Text) {
    NumberValue(t).Some? && NumberValue(t).value.Float?
  }

  /** The spelling `float.__repr__` gives a finite float: a JSON number with a fraction or an exponent. */
  type FloatSpelling = t: Text | IsFloatSpelling(t) witness [48, 46, 48]

  /** A Python value handed to an edit; a finite float comes with its spelling. */
  datatype Py =
    | PyNone
    | PyBool(b: bool)
    | PyInt(n: int)
    | PyFloat(spelling: FloatSpelling)
    | PyNaN
    | PyInfinite(negative: bool)
    | PyStr(s: Text)
    | PyList(elems: PyElems)
    | PyDict(members: PyMembers)

  datatype PyElems = NoElems | PyElems(head: Py, tail: PyElems)

  /** The items of a dictionary with string keys, in insertion order. */
  datatype PyMembers = NoMembers | PyMembers(key: Text, value: Py, tail: PyMembers)

  predicate IsScalar(p: Py) {
    !p.PyList? && !p.PyDict?
  }

  function PyValue(p: Py): Value {
    match p
    case PyNone => Null
    case PyBool(b) => Bool(b)
    case PyInt(n) => Num(Int(n))
    case PyFloat(spelling) => Num(NumberValue(spelling).value)
    case PyNaN => NaN
    case PyInfinite(negative) => Infinite(negative)
    case PyStr(s) => Str(s)
    case PyList(elems) => List(ElemValues(elems))
    case PyDict(members) => Dict(MemberValues(members))
  }

  function ElemValues(elems: PyElems): Values {
    match elems case NoElems => NoValues case PyElems(head, tail) => Values(PyValue(head), ElemValues(tail))
  }

  function MemberValues(members: PyMembers): Entries {
    match members
    case NoMembers => NoEntries
    case PyMembers(key, value, tail) => Entries(key, PyValue(value), MemberValues(tail))
  }

  /** `json.dumps` with the separators `,` and `:`. */
  function Dump(p: Py, ascii: bool): Text {
    match p
    case PyNone => NULL
    case PyBool(b) => if b then TRUE else FALSE
    case PyInt(n) => WriteInt(n)
    case PyFloat(spelling) => spelling
    case PyNaN => NAN
    case PyInfinite(negative) => if negative then NEGATIVE_INFINITY else INFINITY
    case PyStr(s) => DumpString(s, ascii)
    case PyList(elems) => [LBRACKET] + DumpElems(elems, ascii) + [RBRACKET]
    case PyDict(members) => [LBRACE] + DumpMembers(members, ascii) + [RBRACE]
  }

  function DumpString(s: Text, ascii: bool): Text {
    Quoted(WriteBody(s, ascii))
  }

  function DumpElems(elems: PyElems, ascii: bool): Text {
    match elems
    case NoElems => []
    case PyElems(head, tail) =>
      Dump(head, ascii) + if tail.NoElems? then [] else [COMMA] + DumpElems(tail, ascii)
  }

  function DumpMembers(members: PyMembers, ascii: bool): Text {
    match members
    case NoMembers => []
    case PyMembers(key, value, tail) =>
      DumpString(key, ascii) +
      ([COLON] + (Dump(value, ascii) + if tail.NoMembers? then [] else [COMMA] + DumpMembers(tail, ascii)))
  }

  function ReloadedString(s: Text, ascii: bool): Text {
    if ascii then JoinPairs(s) else s
  }

  /** What `json.loads` makes of the dumped value. */
  function Reloaded(p: Py, ascii: bool): Value {
    match p
    case PyStr(s) => Str(ReloadedString(s, ascii))
    case PyList(elems) => List(ReloadedElems(elems, ascii))
    case PyDict(members) => Dict(ReloadedMembers(NoEntries, members, ascii))
    case _ => PyValue(p)
  }

  function ReloadedElems(elems: PyElems, ascii: bool): Values {
    match elems
    case NoElems => NoValues
    case PyElems(head, tail) => Values(Reloaded(head, ascii), ReloadedElems(tail, ascii))
  }

  function ReloadedMembers(soFar: Entries, members: PyMembers, ascii: bool): Entries
    decreases members
  {
    match members
    case NoMembers => soFar
    case PyMembers(key, value, tail) =>
      ReloadedMembers(DictSet(soFar, ReloadedString(key, ascii), Reloaded(value, ascii)), tail, ascii)
  }

  lemma DumpReloads(p: Py, ascii: bool)
    requires IsScalar(p)
    ensures TokenValue(Dump(p, ascii), Lenient) == Some(Reloaded(p, ascii))
    ensures !p.PyNaN? && !p.PyInfinite? ==> TokenValue(Dump(p, ascii), Strict) == Some(Reloaded(p, ascii))
  {
    match p
    case PyInt(n) =>
      IntRoundTrip(n);
      NumberIsNoConstant(WriteInt(n));
    case PyFloat(spelling) =>
      NumberIsNoConstant(spelling);
    case PyStr(s) =>
      var body := WriteBody(s, ascii);
      assert Quoted(body)[1..|Quoted(body)| - 1] == body;
      DecodeWritten(s, ascii);
    case _ =>
  }

  lemma NumberIsNoConstant(t: Text)
    requires NumberValue(t).Some?
    ensures t != [] && t[0] != QUOTE && !IsConstant(t, Lenient)
  {
    hide NumberValue;
    NumberChars(t);
    assert !IsNumChar(INFINITY[0]) && NEGATIVE_INFINITY[1] == INFINITY[0];
  }

  lemma NumberChars(t: Text)
    requires NumberValue(t).Some?
    ensures t != [] && forall k :: 0 <= k < |t| ==> IsNumChar(t[k])
  {
  }

  predicate FaithfulString(s: Text, ascii: bool) {
    ascii ==> !HasPair(s)
  }

  /** The value survives being dumped and loaded, and compares equal to itself. */
  predicate Faithful(p: Py, ascii: bool) {
    match p
    case PyNaN => false
    case PyStr(s) => FaithfulString(s, ascii)
    case PyList(elems) => FaithfulElems(elems, ascii)
    case PyDict(members) => FaithfulMembers(members, ascii)
    case _ => true
  }

  predicate FaithfulElems(elems: PyElems, ascii: bool) {
    match elems case NoElems => true case PyElems(head, tail) => Faithful(head, ascii) && FaithfulElems(tail, ascii)
  }

  predicate FaithfulMembers(members: PyMembers, ascii: bool) {
    match members
    case NoMembers => true
    case PyMembers(key, value, tail) =>
      FaithfulString(key, ascii) && Faithful(value, ascii) && FaithfulMembers(tail, ascii)
  }

  // ---- Python equality -----------------------------------------------------------------------------

  /** Booleans and numbers compare by numeric value across types. */
  function Numeric(v: Value): Option<real> {
    match v
    case Bool(b) => Some(if b then 1.0 else 0.0)
    case Num(Int(n)) => Some(n as real)
    case Num(Float(r)) => Some(r)
    case _ => None
  }

  function Size(entries: Entries): nat {
    match entries case NoEntries => 0 case Entries(_, _, tail) => 1 + Size(tail)
  }

  predicate PyEqual(v: Value, w: Value) {
    match (v, w)
    case (List(x), List(y)) => PyEqualLists(x, y)
    case (Dict(x), Dict(y)) => Size(x) == Size(y) && PyEqualEntries(x, y)
    case (Str(s), Str(t)) => s == t
    case (Null, Null) => true
    case (Infinite(b), Infinite(c)) => b == c
    case _ => Numeric(v).Some? && Numeric(v) == Numeric(w)
  }

  predicate PyEqualLists(x: Values, y: Values) {
    match (x, y)
    case (NoValues, NoValues) => true
    case (Values(v, s), Values(w, t)) => PyEqual(v, w) && PyEqualLists(s, t)
    case _ => false
  }

  /** Every entry of `x` has an equal entry in `y`. */
  predicate PyEqualEntries(x: Entries, y: Entries) {
    match x
    case NoEntries => true
    case Entries(key, v, tail) =>
      (match DictGet(y, key) case Some(w) => PyEqual(v, w) case None => false) && PyEqualEntries(tail, y)
  }

  /** No NaN anywhere, and dictionary keys are distinct: what a strict parse delivers. */
  predicate Plain(v: Value) {
    match v
    case NaN => false
    case List(elems) => PlainList(elems)
    case Dict(entries) => PlainEntries(entries)
    case _ => true
  }

  predicate PlainList(elems: Values) {
    match elems case NoValues => true case Values(v, tail) => Plain(v) && PlainList(tail)
  }

  predicate PlainEntries(entries: Entries) {
    match entries
    case NoEntries => true
    case Entries(key, v, tail) => Plain(v) && DictGet(tail, key).None? && PlainEntries(tail)
  }

  lemma {:induction false} PlainEqualsItself(v: Value)
    requires Plain(v)
    ensures PyEqual(v, v)
    decreases v
  {
    match v
    case List(elems) => PlainListEqual(elems);
    case Dict(entries) => PlainEntriesEqual(entries, entries);
    case _ =>
  }

  lemma {:induction false} PlainListEqual(x: Values)
    requires PlainList(x)
    ensures PyEqualLists(x, x)
    decreases x
  {
    if x.Values? {
      PlainEqualsItself(x.head);
      PlainListEqual(x.tail);
    }
  }

  /** `x` is what remains of `all` after some leading entries. */
  predicate Suffix(x: Entries, all: Entries) {
    x == all || (all.Entries? && Suffix(x, all.tail))
  }

  lemma {:induction false} SuffixGet(x: Entries, all: Entries)
    requires PlainEntries(all) && Suffix(x, all) && x.Entries?
    ensures DictGet(all, x.key) == Some(x.value) && Suffix(x.tail, all)
    decreases all
  {
    if x != all {
      SuffixGet(x, all.tail);
    } else {
      assert Suffix(x.tail, x.tail);
    }
  }

  lemma {:induction false} PlainEntriesEqual(x: Entries, all: Entries)
    requires PlainEntries(all) && PlainEntries(x) && Suffix(x, all)
    ensures PyEqualEntries(x, all)
    decreases x
  {
    if x.Entries? {
      SuffixGet(x, all);
      PlainEqualsItself(x.value);
      PlainEntriesEqual(x.tail, all);
    }
  }

  lemma {:induction false} DictSetPlain(entries: Entries, key: Text, v: Value)
    requires PlainEntries(entries) && Plain(v)
    ensures PlainEntries(DictSet(entries, key, v))
    decreases entries
  {
    if entries.Entries? && entries.key != key {
      DictSetGet(entries.tail, key, v, entries.key);
      DictSetPlain(entries.tail, key, v);
    }
  }

  // ---- Equal values agree along every path ----------------------------------------------------------

  lemma {:induction false} EqualEntriesAgree(x: Entries, y: Entries, key: Text)
    requires PyEqualEntries(x, y) && DictGet(x, key).Some?
    ensures DictGet(y, key).Some? && PyEqual(DictGet(x, key).value, DictGet(y, key).value)
    decreases x
  {
    if x.key != key {
      EqualEntriesAgree(x.tail, y, key);
    }
  }

  lemma {:induction false} EqualListsAgree(x: Values, y: Values, k: nat)
    requires PyEqualLists(x, y) && k < Length(x)
    ensures Length(y) == Length(x) && PyEqual(NthValue(x, k), NthValue(y, k))
    decreases x
  {
    EqualLengths(x, y);
    if k > 0 {
      EqualListsAgree(x.tail, y.tail, k - 1);
    }
  }

  lemma EqualLengths(x: Values, y: Values)
    requires PyEqualLists(x, y)
    ensures Length(x) == Length(y)
  {
  }

  lemma {:induction false} EqualValuesAgree(v: Value, w: Value, path: seq<Step>)
    requires PyEqual(v, w) && GetAt(v, path).Some?
    ensures GetAt(w, path).Some? && PyEqual(GetAt(v, path).value, GetAt(w, path).value)
    decreases |path|
  {
    if path != [] {
      match v {
        case List(x) =>
          EqualLengths(x, w.elems);
          EqualListsAgree(x, w.elems, ListIndex(path[0].index, Length(x)).value);
        case Dict(x) =>
          EqualEntriesAgree(x, w.entries, path[0].key);
        case _ =>
      }
      EqualValuesAgree(Get(v, path[0]).value, Get(w, path[0]).value, path[1..]);
    }
  }

  /** A dumped scalar comes back equal exactly when it is faithful. */
  lemma ReloadedEqual(p: Py, ascii: bool)
    requires IsScalar(p)
    ensures PyEqual(Reloaded(p, ascii), PyValue(p)) <==> Faithful(p, ascii)
    ensures Faithful(p, ascii) ==> Reloaded(p, ascii) == PyValue(p) && Plain(PyValue(p))
  {
    if p.PyStr? {
      JoinPairsShrinks(p.s);
    }
  }
}
