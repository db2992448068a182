/** What Python's `==` means for decoded values: numbers by value, lists by position, dictionaries by key. */
module JsonEquality {
  import opened Text
  import opened JsonNumbers
  import opened JsonGrammar
  import opened JsonPaths
  import opened JsonValues
  import opened JsonInsert
  import opened JsonInsertSeveral

  /** Integers, floats and booleans compare as numbers; everything else only with its own kind, and NaN with nothing. */
  lemma ScalarsCompare(n: int, m: int, r: real, q: real, b: bool, c: bool, s: Text, t: Text, v: Value)
    ensures PyEqual(Num(Int(n)), Num(Int(m))) <==> n == m
    ensures PyEqual(Num(Float(r)), Num(Float(q))) <==> r == q
    ensures PyEqual(Num(Int(n)), Num(Float(r))) <==> r == n as real
    ensures PyEqual(Num(Float(r)), Num(Int(n))) <==> r == n as real
    ensures PyEqual(Bool(b), Num(Int(n))) <==> n == if b then 1 else 0
    ensures PyEqual(Num(Int(n)), Bool(b)) <==> n == if b then 1 else 0
    ensures PyEqual(Bool(b), Num(Float(r))) <==> r == if b then 1.0 else 0.0
    ensures PyEqual(Num(Float(r)), Bool(b)) <==> r == if b then 1.0 else 0.0
    ensures PyEqual(Bool(b), Bool(c)) <==> b == c
    ensures PyEqual(Str(s), Str(t)) <==> s == t
    ensures PyEqual(Infinite(b), Infinite(c)) <==> b == c
    ensures !PyEqual(NaN, v) && !PyEqual(v, NaN)
    ensures (PyEqual(Null, v) || PyEqual(v, Null)) ==> v == Null
    ensures PyEqual(Null, Null)
    ensures PyEqual(Str(s), v) || PyEqual(v, Str(s)) ==> v.Str?
    ensures PyEqual(Infinite(b), v) || PyEqual(v, Infinite(b)) ==> v.Infinite?
  {
  }

  predicate SameAt(x: Values, y: Values, k: nat) {
    k < Length(x) && k < Length(y) && PyEqual(NthValue(x, k), NthValue(y, k))
  }

  /** Lists are equal when they are as long and equal at every position; and only to lists. */
  lemma ListsCompare(x: Values, y: Values)
    ensures PyEqual(List(x), List(y)) <==>
            Length(x) == Length(y) && forall k :: 0 <= k < Length(x) ==> SameAt(x, y, k)
    ensures forall v :: PyEqual(List(x), v) || PyEqual(v, List(x)) ==> v.List?
  {
    hide PyEqual, PyEqualLists;
    ListsUnfold(x, y);
    if PyEqual(List(x), List(y)) {
      EqualLengths(x, y);
      forall k | 0 <= k < Length(x) ensures SameAt(x, y, k) {
        EqualListsAgree(x, y, k);
      }
    }
    if Length(x) == Length(y) && forall k :: 0 <= k < Length(x) ==> SameAt(x, y, k) {
      ElementsEqual(x, y);
    }
  }

  lemma ListsUnfold(x: Values, y: Values)
    ensures PyEqual(List(x), List(y)) <==> PyEqualLists(x, y)
    ensures forall v :: PyEqual(List(x), v) || PyEqual(v, List(x)) ==> v.List?
  {
  }

  lemma {:induction false} ElementsEqual(x: Values, y: Values)
    requires Length(x) == Length(y) && forall k :: 0 <= k < Length(x) ==> SameAt(x, y, k)
    ensures PyEqualLists(x, y)
    decreases x
  {
    hide PyEqual;
    if x.Values? {
      assert SameAt(x, y, 0);
      forall k | 0 <= k < Length(x.tail) ensures SameAt(x.tail, y.tail, k) {
        assert SameAt(x, y, k + 1);
      }
      ElementsEqual(x.tail, y.tail);
    }
  }

  /** The same under every key. */
  predicate SameUnder(x: Entries, y: Entries, key: Text) {
    match (DictGet(x, key), DictGet(y, key))
    case (Some(v), Some(w)) => PyEqual(v, w)
    case (None, None) => true
    case _ => false
  }

  /** Dictionaries are equal when they hold equal values under every key, in whatever order. */
  lemma DictsCompare(x: Entries, y: Entries)
    requires Distinct(x) && Distinct(y)
    ensures PyEqual(Dict(x), Dict(y)) <==> forall key :: SameUnder(x, y, key)
    ensures forall v :: PyEqual(Dict(x), v) || PyEqual(v, Dict(x)) ==> v.Dict?
  {
    hide PyEqualEntries, Keys, Distinct;
    if PyEqual(Dict(x), Dict(y)) {
      SameKeys(x, y);
      forall key ensures SameUnder(x, y, key) {
        KeysAreGot(x, key);
        KeysAreGot(y, key);
        if DictGet(x, key).Some? {
          EqualEntriesAgree(x, y, key);
        }
      }
    }
    if forall key :: SameUnder(x, y, key) {
      forall key ensures key in Keys(x) <==> key in Keys(y) {
        KeysAreGot(x, key);
        KeysAreGot(y, key);
        assert SameUnder(x, y, key);
      }
      assert Keys(x) == Keys(y);
      KeyCount(x);
      KeyCount(y);
      EntriesEqual(x, x, y);
    }
  }

  lemma {:induction false} EntriesEqual(rest: Entries, x: Entries, y: Entries)
    requires Distinct(x) && Suffix(rest, x) && forall key :: SameUnder(x, y, key)
    ensures PyEqualEntries(rest, y)
    decreases rest
  {
    hide PyEqual;
    if rest.Entries? {
      DistinctSuffix(rest, x);
      assert SameUnder(x, y, rest.key);
      EntriesEqual(rest.tail, x, y);
    }
  }
}
