/** What becomes of an inserted member during the rest of a run, and what a second run makes of it. */
module JsonInsertAgain {
  // It stays where it is with the value it was given, unless a later insertion goes into that very value; and
  // only then does a second run refuse.

  import opened Text
  import opened JsonGrammar
  import opened JsonParser
  import opened JsonPaths
  import opened JsonSplice
  import opened JsonValues
  import opened JsonLocality
  import opened JsonDumps
  import opened JsonMembers
  import opened JsonMemberTree
  import opened JsonSurgery
  import opened JsonInsert
  import opened JsonInsertGate
  import opened JsonInsertRun

  // ---- A member and its value -----------------------------------------------------------------------------

  predicate SameChild(n: Node, p: Step, q: Step) {
    if n.Array? then p.index == q.index else p.key == q.key
  }

  /** Followed from `n`, the path `q` leads to or through the member `key` of the object at `p`. */
  predicate Passes(n: Node, p: seq<Step>, key: Text, q: seq<Step>)
    decreases |p|
  {
    && q != []
    && if p == [] then n.Object? && q[0].key == key
       else SameChild(n, p[0], q[0]) && Child(n, p[0]).Ok? && Passes(Child(n, p[0]).value, p[1..], key, q[1..])
  }

  // ---- Trees around an appended member ------------------------------------------------------------------

  lemma {:induction false} AppendedMember(pairs: Pairs, key: Text, a: nat, b: nat, child: Node, other: Text)
    ensures var all := Append(pairs, Pairs(key, a, b, child, NoPairs));
            && CountKey(all, other) == CountKey(pairs, other) + (if other == key then 1 else 0)
            && Lookup(all, other) == if other == key then Some(child) else Lookup(pairs, other)
    decreases pairs
  {
    if pairs.Pairs? {
      AppendedMember(pairs.tail, key, a, b, child, other);
    }
  }

  lemma {:induction false} MovedLookup(pairs: Pairs, key: Text, e: Edit)
    requires Proper(e)
    ensures CountKey(MovePairs(pairs, e), key) == CountKey(pairs, key)
    ensures Lookup(MovePairs(pairs, e), key) ==
            match Lookup(pairs, key) case Some(c) => Some(Move(c, e)) case None => None
    decreases pairs
  {
    hide Move, Shift;
    if pairs.Pairs? {
      MovedLookup(pairs.tail, key, e);
    }
  }

  lemma {:induction false} MovedNth(items: Items, k: nat, e: Edit)
    requires Proper(e)
    ensures Count(MoveItems(items, e)) == Count(items)
    ensures k < Count(items) ==> Nth(MoveItems(items, e), k) == Move(Nth(items, k), e)
    decreases items
  {
    hide Move, Shift;
    if items.Items? {
      MovedNth(items.tail, if k == 0 then 0 else k - 1, e);
    }
  }

  /** The edit appends one member to the object it replaces. */
  ghost predicate Appends(n: Node, e: Edit, key: Text, child: Node) {
    && OfObject(e) && n.Object?
    && exists a: nat, b: nat :: e.node.pairs == Append(n.pairs, Pairs(key, a, b, child, NoPairs))
  }

  lemma ChildThere(n: Node, e: Edit, key: Text, child: Node, step: Step)
    requires Appends(n, e, key, child) && CountKey(n.pairs, key) == 0 && Child(n, step).Ok?
    ensures Child(e.node, step) == Child(n, step)
  {
    var a: nat, b: nat :| e.node.pairs == Append(n.pairs, Pairs(key, a, b, child, NoPairs));
    CountedIsFound(n.pairs, key);
    AppendedMember(n.pairs, key, a, b, child, step.key);
  }

  lemma ChildMoved(n: Node, e: Edit, step: Step)
    requires OfObject(e) && !Hit(n, e) && Child(n, step).Ok?
    ensures Child(Move(n, e), step) == Ok(Move(Child(n, step).value, e))
  {
    hide Shift;
    match n
    case Array(_, _, items) => MovedNth(items, step.index.value, e);
    case Object(_, _, pairs) => MovedLookup(pairs, step.key, e);
  }

  /** The grammar is unambiguous: the object at a span is one object. */
  lemma OneObject(s: Text, n: Node, m: Node, d: Dialect)
    requires Derives(s, n, d) && Derives(s, m, d) && m.Object? && n.start == m.start && n.end == m.end && !n.Leaf?
    ensures n == m
  {
    hide ParsePairs, DerivesPairs, DerivesItems;
    assert n.Object?;
    ParsePairsComplete(s, n.start + 1, n.pairs, n.end - 1, d);
    ParsePairsComplete(s, m.start + 1, m.pairs, m.end - 1, d);
  }

  lemma {:induction false} NavigateHit(n: Node, path: seq<Step>, e: Edit, s: Text, d: Dialect)
    requires Derives(s, n, d) && OfObject(e) && Navigate(n, path).Ok? && Hit(Navigate(n, path).value, e)
    ensures Navigate(Move(n, e), path) == Ok(e.node)
    decreases |path|
  {
    hide Child, Move, Shift, Derives;
    if path == [] {
      HitMoves(n, e);
    } else {
      TargetDerives(s, n, path, d);
      ChildMoved(n, e, path[0]);
      ChildDerives(s, n, path[0], d);
      NavigateHit(Child(n, path[0]).value, path[1..], e, s, d);
    }
  }

  lemma {:induction false} LookupApart(pairs: Pairs, i: nat, j: nat, key: Text, other: Text)
    requires OrderedPairs(pairs, i, j) && key != other && Lookup(pairs, key).Some? && Lookup(pairs, other).Some?
    ensures var x, y := Lookup(pairs, key).value, Lookup(pairs, other).value; x.end <= y.start || y.end <= x.start
    decreases pairs
  {
    if Lookup(pairs.tail, key).Some? {
      LookupSpan(pairs.tail, pairs.child.end, j, key);
      if Lookup(pairs.tail, other).Some? {
        LookupApart(pairs.tail, pairs.child.end, j, key, other);
      }
    } else if Lookup(pairs.tail, other).Some? {
      LookupSpan(pairs.tail, pairs.child.end, j, other);
    }
  }

  lemma {:induction false} NthApart(items: Items, i: nat, j: nat, k: nat, m: nat)
    requires OrderedItems(items, i, j) && k < m < Count(items)
    ensures Nth(items, k).end <= Nth(items, m).start
    decreases items
  {
    if k == 0 {
      NthSpan(items.tail, items.head.end, j, m - 1);
    } else {
      NthApart(items.tail, items.head.end, j, k - 1, m - 1);
    }
  }

  /** Two steps lead to one child or to two that lie apart. */
  lemma ChildrenApart(n: Node, p: Step, q: Step)
    requires Ordered(n) && Child(n, p).Ok? && Child(n, q).Ok?
    ensures SameChild(n, p, q) ==> Child(n, p) == Child(n, q)
    ensures !SameChild(n, p, q) ==>
              var x, y := Child(n, p).value, Child(n, q).value; x.end <= y.start || y.end <= x.start
  {
    if !SameChild(n, p, q) {
      if n.Object? {
        LookupApart(n.pairs, n.start, n.end, p.key, q.key);
      } else if p.index.value < q.index.value {
        NthApart(n.items, n.start, n.end, p.index.value, q.index.value);
      } else {
        NthApart(n.items, n.start, n.end, q.index.value, p.index.value);
      }
    }
  }

  /** A member of a value that the edit does not touch. */
  lemma {:induction false} ElsewhereMember(n: Node, e: Edit, p: seq<Step>, key: Text)
    requires Ordered(n) && OfObject(e) && (n.end <= e.a || e.b <= n.start) && HasMember(n, p, key)
    ensures HasMember(Move(n, e), p, key)
    ensures ValueOf(MemberAt(Move(n, e), p, key)) == ValueOf(MemberAt(n, p, key))
    decreases |p|
  {
    hide Shift, ValueOf, Child;
    if p == [] {
      MovedLookup(n.pairs, key, e);
      LookupSpan(n.pairs, n.start, n.end, key);
      ElsewhereValue(MemberAt(n, p, key), e);
    } else {
      ChildMoved(n, e, p[0]);
      ChildSpan(n, p[0]);
      ElsewhereMember(Child(n, p[0]).value, e, p[1..], key);
    }
  }

  /** The member after the edit: what it was, or, when the edit lies on the way through it, moved with it. */
  predicate Followed(n: Node, e: Edit, p: seq<Step>, key: Text, q: seq<Step>, target: Node)
    requires HasMember(n, p, key) && OfObject(e)
  {
    && HasMember(Move(n, e), p, key)
    && if Passes(n, p, key, q) then
         && |q| > |p| && Navigate(MemberAt(n, p, key), q[|p| + 1..]) == Ok(target)
         && MemberAt(Move(n, e), p, key) == Move(MemberAt(n, p, key), e)
       else ValueOf(MemberAt(Move(n, e), p, key)) == ValueOf(MemberAt(n, p, key))
  }

  /** An insertion into the object that has the member, next to it. */
  lemma BesideMember(n: Node, e: Edit, key0: Text, child: Node, p: seq<Step>, key: Text)
    requires Appends(n, e, key0, child) && CountKey(n.pairs, key0) == 0 && Hit(n, e) && HasMember(n, p, key)
    ensures Followed(n, e, p, key, [], n)
  {
    hide ValueOf, Child, Shift, Move;
    HitMoves(n, e);
    if p == [] {
      var a: nat, b: nat :| e.node.pairs == Append(n.pairs, Pairs(key0, a, b, child, NoPairs));
      AppendedMember(n.pairs, key0, a, b, child, key);
    } else {
      ChildThere(n, e, key0, child, p[0]);
    }
  }

  /** An insertion below the object that has the member. */
  lemma BelowObject(s: Text, n: Node, e: Edit, key: Text, q: seq<Step>, target: Node, d: Dialect)
    requires Derives(s, n, d) && q != [] && Navigate(n, q) == Ok(target) && Hit(target, e) && OfObject(e)
    requires HasMember(n, [], key)
    ensures Followed(n, e, [], key, q, target)
  {
    hide ValueOf, Derives, Shift;
    DerivedIsOrdered(s, n, d);
    TargetDerives(s, n, q, d);
    MovedLookup(n.pairs, key, e);
    var c := MemberAt(n, [], key);
    if q[0].key == key {
      assert Child(n, q[0]) == Ok(c);
    } else {
      ChildDerives(s, n, q[0], d);
      TargetDerives(s, Child(n, q[0]).value, q[1..], d);
      LookupApart(n.pairs, n.start, n.end, key, q[0].key);
      LookupSpan(n.pairs, n.start, n.end, key);
      ElsewhereValue(c, e);
    }
  }

  lemma {:induction false} MemberFollowed(s: Text, n: Node, e: Edit, key0: Text, child: Node, q: seq<Step>,
                                          target: Node, p: seq<Step>, key: Text, d: Dialect)
    requires Derives(s, n, d) && Navigate(n, q) == Ok(target) && Hit(target, e)
    requires Appends(target, e, key0, child) && CountKey(target.pairs, key0) == 0 && HasMember(n, p, key)
    ensures Followed(n, e, p, key, q, target)
    decreases |p|
  {
    hide ValueOf, Child, Shift, Derives, Move, SameChild;
    if q == [] {
      BesideMember(n, e, key0, child, p, key);
      assert !Passes(n, p, key, q);
    } else if p == [] {
      BelowObject(s, n, e, key, q, target, d);
    } else {
      TargetDerives(s, n, q, d);
      ChildMoved(n, e, p[0]);
      DerivedIsOrdered(s, n, d);
      ChildrenApart(n, p[0], q[0]);
      ChildDerives(s, n, p[0], d);
      ChildDerives(s, n, q[0], d);
      var c := Child(n, p[0]).value;
      if SameChild(n, p[0], q[0]) {
        MemberFollowed(s, c, e, key0, child, q[1..], target, p[1..], key, d);
        if |q| > |p| {
          assert q[1..][|p[1..]| + 1..] == q[|p| + 1..];
        }
      } else {
        TargetDerives(s, Child(n, q[0]).value, q[1..], d);
        DerivedIsOrdered(s, c, d);
        ElsewhereMember(c, e, p[1..], key);
      }
    }
  }

  // ---- Values that have grown ---------------------------------------------------------------------------

  /** Along some path `v` has a larger dictionary than `w`. */
  ghost predicate Outgrown(v: Value, w: Value) {
    exists path :: Larger(v, w, path)
  }

  predicate Larger(v: Value, w: Value, path: seq<Step>) {
    && GetAt(v, path).Some? && GetAt(v, path).value.Dict? && GetAt(w, path).Some? && GetAt(w, path).value.Dict?
    && Size(GetAt(v, path).value.entries) > Size(GetAt(w, path).value.entries)
  }

  lemma OutgrownDiffers(v: Value, w: Value)
    requires Outgrown(v, w)
    ensures !PyEqual(v, w)
  {
    hide GetAt;
    var path :| Larger(v, w, path);
    if PyEqual(v, w) {
      EqualValuesAgree(v, w, path);
    }
  }

  /** `v2` is `v` with a new entry in the dictionary at `rest`. */
  predicate GrewAt(v: Value, v2: Value, rest: seq<Step>, key: Text, x: Value) {
    && GetAt(v, rest).Some? && GetAt(v, rest).value.Dict? && DictGet(GetAt(v, rest).value.entries, key).None?
    && PutAt(v, rest, Dict(DictSet(GetAt(v, rest).value.entries, key, x))) == Some(v2)
  }

  ghost predicate Grew(v: Value, v2: Value) {
    exists rest, key, x :: GrewAt(v, v2, rest, key, x)
  }

  lemma GrewIsLarger(v: Value, v2: Value, rest: seq<Step>, key: Text, x: Value)
    requires GrewAt(v, v2, rest, key, x)
    ensures Larger(v2, v, rest)
  {
    hide GetAt, PutAt;
    var d := GetAt(v, rest).value.entries;
    PutAtGet(v, rest, Dict(DictSet(d, key, x)));
    SizeSet(d, key, x);
  }

  lemma {:induction false} NthOther(values: Values, k: nat, x: Value, m: nat)
    requires k < Length(values) && m < Length(values) && k != m
    ensures Length(SetNth(values, k, x)) == Length(values) && NthValue(SetNth(values, k, x), m) == NthValue(values, m)
    decreases values
  {
    SetNthGet(values, k, x);
    if k > 0 && m > 0 {
      NthOther(values.tail, k - 1, x, m - 1);
    }
  }

  /** What another step reads after an assignment to a child that exists. */
  lemma GetOther(v: Value, step: Step, x: Value, other: Step)
    requires Get(v, step).Some? && Put(v, step, x).Some? && Get(v, other).Some?
    ensures var w := Put(v, step, x).value;
            && (Get(w, other) == Some(x) || Get(w, other) == Get(v, other))
            && (Get(w, other) != Get(v, other) ==> Get(v, other) == Get(v, step))
            && (v.Dict? ==> w.Dict? && Size(w.entries) == Size(v.entries))
            && (!v.Dict? ==> !w.Dict?)
  {
    match v
    case List(elems) =>
      var k, m := ListIndex(step.index, Length(elems)).value, ListIndex(other.index, Length(elems)).value;
      SetNthGet(elems, k, x);
      if k != m {
        NthOther(elems, k, x, m);
      }
    case Dict(entries) =>
      DictSetGet(entries, step.key, x, other.key);
      SizeSet(entries, step.key, x);
  }

  lemma PutSize(v: Value, step: Step, x: Value)
    requires Get(v, step).Some? && Put(v, step, x).Some? && v.Dict?
    ensures Put(v, step, x).value.Dict? && Size(Put(v, step, x).value.entries) == Size(v.entries)
  {
    SizeSet(v.entries, step.key, x);
  }

  lemma PutAtStep(v: Value, rest: seq<Step>, x: Value)
    requires rest != [] && PutAt(v, rest, x).Some? && GetAt(v, rest).Some?
    ensures Get(v, rest[0]).Some? && PutAt(Get(v, rest[0]).value, rest[1..], x).Some?
    ensures PutAt(v, rest, x) == Put(v, rest[0], PutAt(Get(v, rest[0]).value, rest[1..], x).value)
    ensures GetAt(Get(v, rest[0]).value, rest[1..]) == GetAt(v, rest)
  {
    hide Get, Put;
    if |rest| == 1 {
      assert rest[1..] == [];
    }
  }

  /** Growing elsewhere takes nothing away: every dictionary is still there, with no fewer entries. */
  lemma {:induction false} GrewKeeps(v: Value, v2: Value, rest: seq<Step>, key: Text, x: Value, q: seq<Step>)
    requires GrewAt(v, v2, rest, key, x) && GetAt(v, q).Some? && GetAt(v, q).value.Dict?
    ensures GetAt(v2, q).Some? && GetAt(v2, q).value.Dict?
    ensures Size(GetAt(v2, q).value.entries) >= Size(GetAt(v, q).value.entries)
    decreases |q|
  {
    hide Get, Put;
    var grown := Dict(DictSet(GetAt(v, rest).value.entries, key, x));
    if rest == [] {
      GrewHere(v, key, x, q);
    } else {
      PutAtStep(v, rest, grown);
      var c := Get(v, rest[0]).value;
      var c2 := PutAt(c, rest[1..], grown).value;
      if q == [] {
        PutSize(v, rest[0], c2);
      } else {
        GetOther(v, rest[0], c2, q[0]);
        if Get(v2, q[0]) != Get(v, q[0]) {
          GrewKeeps(c, c2, rest[1..], key, x, q[1..]);
        }
      }
    }
  }

  lemma GrewHere(v: Value, key: Text, x: Value, q: seq<Step>)
    requires v.Dict? && DictGet(v.entries, key).None? && GetAt(v, q).Some? && GetAt(v, q).value.Dict?
    ensures var w := Dict(DictSet(v.entries, key, x));
            && GetAt(w, q).Some? && GetAt(w, q).value.Dict?
            && Size(GetAt(w, q).value.entries) >= Size(GetAt(v, q).value.entries)
  {
    SizeSet(v.entries, key, x);
    if q != [] {
      DictSetGet(v.entries, key, x, q[0].key);
    }
  }

  /** Once outgrown, always outgrown. */
  lemma StaysOutgrown(v: Value, v2: Value, w: Value)
    requires Outgrown(v, w) && Grew(v, v2)
    ensures Outgrown(v2, w)
  {
    hide GetAt, PutAt;
    var path :| Larger(v, w, path);
    var rest, key, x :| GrewAt(v, v2, rest, key, x);
    GrewKeeps(v, v2, rest, key, x, path);
    assert Larger(v2, w, path);
  }

  lemma GrewOutgrows(v: Value, v2: Value)
    requires Grew(v, v2)
    ensures Outgrown(v2, v)
  {
    hide GetAt, PutAt, Larger;
    var rest, key, x :| GrewAt(v, v2, rest, key, x);
    GrewIsLarger(v, v2, rest, key, x);
  }

  // ---- One insertion, and the members there are ----------------------------------------------------------

  lemma NewMember(s: Text, n: Node, ins: Insertion, ascii: bool)
    requires n.Object? && n.start < n.end <= |s| && CountKey(n.pairs, ins.key) == 0 && Ordinary(ins)
    ensures var e := EditAt(s, n, ins.key, ins.value, ascii);
            && OfObject(e) && Hit(n, e) && e.node.Object?
            && CountKey(e.node.pairs, ins.key) == 1 && Lookup(e.node.pairs, ins.key).Some?
            && ValueOf(Lookup(e.node.pairs, ins.key).value) == PyValue(ins.value)
            && Appends(n, e, ins.key, Member(ins.key, ins.value, ascii, KeyAt(s, n)).child)
  {
    hide Reloaded, PyValue, ChunkText, KeyAt, ReloadedString, DumpString, Dump, Tree, ValueOf, Ordinary, Plain, PyEqual;
    OrdinaryKept(ins, ascii);
    var m := Member(ins.key, ins.value, ascii, KeyAt(s, n));
    TreeValue(ins.value, ascii, m.keyEnd + 2);
    AppendedMember(n.pairs, ins.key, m.keyStart, m.keyEnd, m.child, ins.key);
    assert m == Pairs(ins.key, m.keyStart, m.keyEnd, m.child, NoPairs);
    CountedIsFound(n.pairs, ins.key);
  }

  /** Right after its insertion a member is there and has its value. */
  lemma InsertedMember(s: Text, root: Node, ins: Insertion)
    requires DerivesDocument(s, root, Strict) && InsertOne(s, ins).Ok? && Ordinary(ins) && Clean(root, ins)
    ensures HasMember(RootAfter(s, root, ins), ins.path, ins.key)
    ensures ValueOf(MemberAt(RootAfter(s, root, ins), ins.path, ins.key)) == PyValue(ins.value)
  {
    hide Derives, Navigate, ValueOf, InsertOne, Move, WsEnd, Inserted, DetectEnsureAscii, Hit, OfObject, Appends,
      EditAt, Ordinary, PyValue, DerivesDocument;
    StepText(s, root, ins);
    RootDerives(s, root, Strict);
    TargetDerives(s, root, ins.path, Strict);
    var n, ascii := Navigate(root, ins.path).value, DetectEnsureAscii(s);
    if Adds(root, ins) {
      NewMember(s, n, ins, ascii);
      NavigateHit(root, ins.path, EditAt(s, n, ins.key, ins.value, ascii), s, Strict);
    }
  }

  /** The insertion goes into the value of the member. */
  predicate GoesInto(root: Node, ins: Insertion, path: seq<Step>, key: Text) {
    Adds(root, ins) && Passes(root, path, key, ins.path)
  }

  /** A member keeps its value through an insertion, unless the insertion goes into it; then it grows. */
  lemma MemberAfter(s: Text, root: Node, ins: Insertion, path: seq<Step>, key: Text)
    requires DerivesDocument(s, root, Strict) && InsertOne(s, ins).Ok? && Ordinary(ins) && HasMember(root, path, key)
    ensures HasMember(RootAfter(s, root, ins), path, key)
    ensures var v, v2 := ValueOf(MemberAt(root, path, key)), ValueOf(MemberAt(RootAfter(s, root, ins), path, key));
            if GoesInto(root, ins, path, key) then Grew(v, v2) else v2 == v
  {
    hide Derives, Navigate, ValueOf, InsertOne, Move, WsEnd, Inserted, DetectEnsureAscii, Hit, OfObject, Appends,
      Passes, EditAt, Ordinary, PyValue, DerivesDocument, HasMember, MemberAt, Grew;
    StepText(s, root, ins);
    RootDerives(s, root, Strict);
    TargetDerives(s, root, ins.path, Strict);
    if Adds(root, ins) {
      var n, ascii := Navigate(root, ins.path).value, DetectEnsureAscii(s);
      NewMember(s, n, ins, ascii);
      var e, m := EditAt(s, n, ins.key, ins.value, ascii), Member(ins.key, ins.value, ascii, KeyAt(s, n));
      MemberFollowed(s, root, e, ins.key, m.child, ins.path, n, path, key, Strict);
      if Passes(root, path, key, ins.path) {
        MemberInside(s, root, path, key);
        ExtendedInPlace(s, MemberAt(root, path, key), n, ins, ascii, ins.path[|path| + 1..]);
      }
    }
  }

  lemma MemberInside(s: Text, root: Node, path: seq<Step>, key: Text)
    requires Derives(s, root, Strict) && HasMember(root, path, key)
    ensures Derives(s, MemberAt(root, path, key), Strict)
  {
    hide Derives;
    TargetDerives(s, root, path, Strict);
    var n := Navigate(root, path).value;
    ChildDerives(s, n, Step(key, None), Strict);
  }

  /** Extending an object inside a value gives the value one more entry there. */
  lemma ExtendedInPlace(s: Text, c: Node, n: Node, ins: Insertion, ascii: bool, rest: seq<Step>)
    requires Derives(s, c, Strict) && Navigate(c, rest) == Ok(n) && n.Object? && n.start < n.end <= |s|
    requires CountKey(n.pairs, ins.key) == 0 && Ordinary(ins)
    ensures Proper(EditAt(s, n, ins.key, ins.value, ascii))
    ensures Grew(ValueOf(c), ValueOf(Move(c, EditAt(s, n, ins.key, ins.value, ascii))))
  {
    hide Derives, Navigate, ValueOf, Move, WsEnd, EditAt, Ordinary, PyValue, GetAt, PutAt, Reloaded, ReloadedString,
      Extended;
    var e := EditAt(s, n, ins.key, ins.value, ascii);
    NewMember(s, n, ins, ascii);
    MovedValue(s, c, rest, e, Strict);
    ExtendedValue(s, n, ins.key, ins.value, ascii);
    EditNode(s, n, ins.key, ins.value, ascii);
    NavigatedValue(c, rest);
    ObjectValue(n);
    CountedIsFound(n.pairs, ins.key);
    EntriesGet(NoEntries, n.pairs, ins.key);
    OrdinaryKept(ins, ascii);
    assert GrewAt(ValueOf(c), ValueOf(Move(c, e)), rest, ins.key, PyValue(ins.value));
  }

  lemma EditNode(s: Text, n: Node, key: Text, value: Py, ascii: bool)
    requires n.Object? && n.start < n.end <= |s|
    ensures EditAt(s, n, key, value, ascii).node == Extended(s, n, key, value, ascii)
  {
  }

  // ---- A run, and the members it makes ----------------------------------------------------------------------

  /** When its turn comes, insertion `j` goes into the value that insertion `k` put there. */
  predicate GrowsInto(raw: Text, edits: seq<Insertion>, k: int, j: int) {
    && 0 <= k < j < |edits| && TreeAfter(raw, edits[..j]).Some?
    && GoesInto(TreeAfter(raw, edits[..j]).value, edits[j], edits[k].path, edits[k].key)
  }

  predicate GrownBy(raw: Text, edits: seq<Insertion>, k: int, n: int) {
    exists j :: k < j < n && GrowsInto(raw, edits, k, j)
  }

  /** After `n` insertions, member `k` is there; its value is the one given, or has outgrown it. */
  predicate MemberStands(r: Node, ins: Insertion, grown: bool) {
    Stands(r, ins) && !grown
  }

  ghost predicate MemberGrew(r: Node, ins: Insertion, grown: bool) {
    HasMember(r, ins.path, ins.key) && grown && Outgrown(ValueOf(MemberAt(r, ins.path, ins.key)), PyValue(ins.value))
  }

  lemma PrefixDerives(raw: Text, root: Node, edits: seq<Insertion>, n: nat)
    requires Runs(raw, root, edits) && n <= |edits|
    ensures InsertAll(raw, edits[..n]).Ok? && TreeAfter(raw, edits[..n]).Some?
    ensures DerivesDocument(InsertAll(raw, edits[..n]).value, TreeAfter(raw, edits[..n]).value, Strict)
  {
    hide DerivesDocument, InsertAll, TreeAfter, Ordinary, ContainersFit;
    PrefixRuns(raw, root, edits, n);
    RunDerives(raw, root, edits[..n]);
  }

  lemma {:induction false} RunMember(raw: Text, root: Node, edits: seq<Insertion>, k: nat, n: nat)
    requires Runs(raw, root, edits) && k < n <= |edits|
    ensures TreeAfter(raw, edits[..n]).Some?
    ensures var r, grown := TreeAfter(raw, edits[..n]).value, GrownBy(raw, edits, k, n);
            MemberStands(r, edits[k], grown) || MemberGrew(r, edits[k], grown)
    decreases n
  {
    hide DerivesDocument, InsertOne, InsertAll, TreeAfter, RootAfter, Ordinary, ValueOf, PyValue, ExpectOne,
      ContainersFit, GoesInto, Clean, HasMember, MemberAt, Outgrown, Grew;
    PrefixDerives(raw, root, edits, n - 1);
    PrefixDerives(raw, root, edits, n);
    StepRuns(raw, root, edits, n - 1);
    var s, r := InsertAll(raw, edits[..n - 1]).value, TreeAfter(raw, edits[..n - 1]).value;
    OrdinaryAt(raw, root, edits, n - 1);
    if n == k + 1 {
      InsertedMember(s, r, edits[k]);
    } else {
      RunMember(raw, root, edits, k, n - 1);
      MemberAfter(s, r, edits[n - 1], edits[k].path, edits[k].key);
      GrownOneMore(raw, edits, k, n - 1);
      var v, v2 := ValueOf(MemberAt(r, edits[k].path, edits[k].key)),
                   ValueOf(MemberAt(RootAfter(s, r, edits[n - 1]), edits[k].path, edits[k].key));
      if GrowsInto(raw, edits, k, n - 1) {
        GrewOutgrows(v, v2);
        if GrownBy(raw, edits, k, n - 1) {
          StaysOutgrown(v, v2, PyValue(edits[k].value));
        }
      }
    }
  }

  lemma OrdinaryAt(raw: Text, root: Node, edits: seq<Insertion>, n: nat)
    requires Runs(raw, root, edits) && n < |edits|
    ensures Ordinary(edits[n])
  {
  }

  lemma GrownOneMore(raw: Text, edits: seq<Insertion>, k: nat, n: nat)
    requires k < n
    ensures GrownBy(raw, edits, k, n + 1) <==> GrownBy(raw, edits, k, n) || GrowsInto(raw, edits, k, n)
  {
    hide GrowsInto;
    if GrownBy(raw, edits, k, n + 1) {
      var j :| k < j < n + 1 && GrowsInto(raw, edits, k, j);
      assert j < n || j == n;
    }
  }

  // ---- The second run -------------------------------------------------------------------------------------

  /** Inserting a member that is there: nothing to do if it still has its value, a refusal if it has grown. */
  lemma AgainOne(s: Text, r: Node, ins: Insertion, grown: bool)
    requires DerivesDocument(s, r, Strict) && Ordinary(ins)
             && (MemberStands(r, ins, grown) || MemberGrew(r, ins, grown))
    ensures InsertOne(s, ins) == if grown then Err(SurgicalError) else Ok(s)
  {
    hide Derives, Navigate, ParseValue, WsEnd, Inserted, DetectEnsureAscii, Lookup, CountKey, Finite, PyEqual, Plain,
      ValueOf, PyValue, Outgrown, DerivesDocument, IsPython, FaithfulInsertion, IsScalar;
    ParserIsExact(s, r, Strict);
    NavigatedInside(s, ins.path);
    OrdinaryKept(ins, true);
    var v := ValueOf(MemberAt(r, ins.path, ins.key));
    if grown {
      OutgrownDiffers(v, PyValue(ins.value));
    }
    StillSame(v, ins.value);
  }

  lemma StillSame(v: Value, p: Py)
    requires Plain(PyValue(p)) && PyEqual(PyValue(p), PyValue(p))
    ensures v == PyValue(p) ==> SameAs(v, p)
    ensures !PyEqual(v, PyValue(p)) ==> !SameAs(v, p)
  {
  }

  lemma {:induction false} AgainAll(s: Text, r: Node, edits: seq<Insertion>, grown: seq<bool>)
    requires DerivesDocument(s, r, Strict) && AllOrdinary(edits) && |grown| == |edits|
    requires forall k :: 0 <= k < |edits| ==> MemberStands(r, edits[k], grown[k]) || MemberGrew(r, edits[k], grown[k])
    ensures InsertAll(s, edits) == if exists k :: 0 <= k < |grown| && grown[k] then Err(SurgicalError) else Ok(s)
    decreases |edits|
  {
    hide DerivesDocument, InsertOne, Ordinary, MemberStands, MemberGrew;
    if edits != [] {
      var before, flags := edits[..|edits| - 1], grown[..|edits| - 1];
      assert forall k :: 0 <= k < |before| ==> before[k] == edits[k] && flags[k] == grown[k];
      AgainAll(s, r, before, flags);
      AgainOne(s, r, edits[|edits| - 1], grown[|edits| - 1]);
    }
  }

  /**
   Applying the same insertions again: the text comes back byte for byte unless some insertion went into the
   value of an earlier one, and then the second run is refused.
   */
  lemma SecondRunIsExact(raw: Text, root: Node, edits: seq<Insertion>)
    requires Runs(raw, root, edits)
    ensures InsertAll(InsertAll(raw, edits).value, edits) ==
            if exists k, j :: GrowsInto(raw, edits, k, j) then Err(SurgicalError) else InsertAll(raw, edits)
  {
    hide DerivesDocument, InsertAll, TreeAfter, Ordinary, ContainersFit, GrowsInto, MemberStands, MemberGrew;
    assert edits[..|edits|] == edits;
    PrefixDerives(raw, root, edits, |edits|);
    var n := |edits|;
    var grown := seq(n, k requires 0 <= k < n => GrownBy(raw, edits, k, n));
    forall k | 0 <= k < n
      ensures var r := TreeAfter(raw, edits).value; MemberStands(r, edits[k], grown[k]) || MemberGrew(r, edits[k],
              grown[k])
    {
      RunMember(raw, root, edits, k, n);
    }
    AgainAll(InsertAll(raw, edits).value, TreeAfter(raw, edits).value, edits, grown);
    SomeGrown(raw, edits, grown);
  }

  lemma SomeGrown(raw: Text, edits: seq<Insertion>, grown: seq<bool>)
    requires |grown| == |edits| && forall k :: 0 <= k < |grown| ==> grown[k] == GrownBy(raw, edits, k, |edits|)
    ensures (exists k :: 0 <= k < |grown| && grown[k]) <==> exists k, j :: GrowsInto(raw, edits, k, j)
  {
    hide TreeAfter, GoesInto;
    if k, j :| GrowsInto(raw, edits, k, j) {
      assert GrownBy(raw, edits, k, |edits|);
      assert grown[k];
    }
  }

  /** Without growth, each prefix of the list leaves the first result as it is. */
  lemma PrefixAgain(raw: Text, root: Node, edits: seq<Insertion>, k: nat)
    requires Runs(raw, root, edits) && k <= |edits| && !exists k, j :: GrowsInto(raw, edits, k, j)
    ensures InsertAll(raw, edits).Ok? && TreeAfter(raw, edits).Some?
    ensures var s, r := InsertAll(raw, edits).value, TreeAfter(raw, edits).value;
            && DerivesDocument(s, r, Strict) && InsertAll(s, edits[..k]) == Ok(s)
            && TreeAfter(s, edits[..k]) == Some(r) && (k < |edits| ==> Stands(r, edits[k]))
  {
    hide DerivesDocument, InsertAll, Ordinary, ContainersFit, GrowsInto, Stands, ParseDocument;
    assert edits[..|edits|] == edits;
    PrefixDerives(raw, root, edits, |edits|);
    var s, r := InsertAll(raw, edits).value, TreeAfter(raw, edits).value;
    forall i | 0 <= i < |edits| ensures MemberStands(r, edits[i], false) {
      RunMember(raw, root, edits, i, |edits|);
    }
    var none := seq(k, i => false);
    AgainAll(s, r, edits[..k], none);
    ParserIsExact(s, r, Strict);
  }

  /** Without growth, the first result is itself where the same list runs, to no effect. */
  lemma RunsAgain(raw: Text, root: Node, edits: seq<Insertion>)
    requires Runs(raw, root, edits) && !exists k, j :: GrowsInto(raw, edits, k, j)
    ensures InsertAll(raw, edits).Ok? && TreeAfter(raw, edits).Some?
    ensures var s, r := InsertAll(raw, edits).value, TreeAfter(raw, edits).value;
            Runs(s, r, edits) && InsertAll(s, edits) == Ok(s)
  {
    hide DerivesDocument, InsertAll, TreeAfter, Ordinary, GrowsInto, Stands, Adds;
    assert edits[..|edits|] == edits;
    PrefixAgain(raw, root, edits, |edits|);
    var s, r := InsertAll(raw, edits).value, TreeAfter(raw, edits).value;
    forall k | 0 <= k < |edits| ensures TreeAfter(s, edits[..k]) == Some(r) && Stands(r, edits[k])
    {
      PrefixAgain(raw, root, edits, k);
    }
  }

  /** `insert_object_properties`: the loop, the expected value, the gate. */
  function InsertProperties(raw: Text, edits: seq<Insertion>): Result<Text> {
    match InsertAll(raw, edits)
    case Err(error) => Err(error)
    case Ok(out) =>
      match Loads(raw)
      case Err(error) => Err(error)
      case Ok(before) =>
        match ExpectAll(before, edits)
        case Err(error) => Err(error)
        case Ok(expected) =>
          match Loads(out)
          case Err(error) => Err(error)
          case Ok(got) => if PyEqual(got, expected) then Ok(out) else Err(SurgicalError)
  }

  /**
   Calling the function again on its result.  What the second call expects is what the text already says, so its
   gate passes and the text comes back byte for byte, unless some insertion went into the value of an earlier
   one; then the second call is refused.
   */
  lemma SecondCallIsExact(raw: Text, root: Node, edits: seq<Insertion>)
    requires Runs(raw, root, edits)
    ensures InsertProperties(raw, edits) == InsertAll(raw, edits)
    ensures var s := InsertAll(raw, edits).value;
            if exists k, j :: GrowsInto(raw, edits, k, j) then InsertProperties(s, edits) == Err(SurgicalError)
            else InsertProperties(s, edits) == Ok(s) && Loads(s).Ok? && ExpectAll(Loads(s).value, edits) == Loads(s)
  {
    hide DerivesDocument, InsertAll, TreeAfter, Ordinary, ContainersFit, GrowsInto, Loads, ExpectAll, PyEqual, ValueOf;
    RunPasses(raw, root, edits);
    SecondRunIsExact(raw, root, edits);
    if !exists k, j :: GrowsInto(raw, edits, k, j) {
      RunsAgain(raw, root, edits);
      RunPasses(InsertAll(raw, edits).value, TreeAfter(raw, edits).value, edits);
    }
  }

  /** Nothing can go into a scalar, so insertions of scalars may be repeated at will. */
  lemma ScalarsNeverGrow(raw: Text, root: Node, edits: seq<Insertion>, k: int, j: int)
    requires Runs(raw, root, edits) && 0 <= k < |edits| && IsScalar(edits[k].value)
    ensures !GrowsInto(raw, edits, k, j)
    decreases j
  {
    hide DerivesDocument, InsertAll, TreeAfter, Ordinary, ContainersFit, ValueOf, PyValue, MemberAt, HasMember,
      Grew, Outgrown, RootAfter, Clean, ExpectOne, InsertOne, GoesInto;
    if GrowsInto(raw, edits, k, j) {
      if GrownBy(raw, edits, k, j) {
        var i :| k < i < j && GrowsInto(raw, edits, k, i);
        ScalarsNeverGrow(raw, root, edits, k, i);
      }
      RunMember(raw, root, edits, k, j);
      PrefixDerives(raw, root, edits, j);
      StepRuns(raw, root, edits, j);
      OrdinaryAt(raw, root, edits, j);
      var s, r := InsertAll(raw, edits[..j]).value, TreeAfter(raw, edits[..j]).value;
      MemberAfter(s, r, edits[j], edits[k].path, edits[k].key);
      ScalarsDoNotGrow(edits[k].value, ValueOf(MemberAt(RootAfter(s, r, edits[j]), edits[k].path, edits[k].key)));
    }
  }

  lemma ScalarsDoNotGrow(p: Py, v2: Value)
    requires IsScalar(p)
    ensures !Grew(PyValue(p), v2)
  {
    forall rest, key, x ensures !GrewAt(PyValue(p), v2, rest, key, x) {
      if rest != [] {
        assert Get(PyValue(p), rest[0]).None?;
      }
    }
  }

  /**
   The shortest case of a refused second run: a dictionary that was inserted empty and then given a member of
   its own no longer equals what the first insertion asks for.
   */
  lemma GrownDictionaryIsRefused(s: Text, root: Node, ins: Insertion)
    requires DerivesDocument(s, root, Strict) && ins.value == PyDict(NoMembers)
    requires Navigate(root, ins.path).Ok? && Navigate(root, ins.path).value.Object?
    requires var child := Lookup(Navigate(root, ins.path).value.pairs, ins.key);
             child.Some? && child.value.Object? && child.value.pairs.Pairs?
    ensures InsertOne(s, ins) == Err(SurgicalError)
  {
    hide Derives, ParseValue, Navigate, WsEnd, DetectEnsureAscii;
    ParserIsExact(s, root, Strict);
    NavigatedInside(s, ins.path);
    var n := Navigate(root, ins.path).value;
    var pairs := Lookup(n.pairs, ins.key).value.pairs;
    CountedIsFound(n.pairs, ins.key);
    CountedIsFound(pairs, pairs.key);
    EntriesGet(NoEntries, pairs, pairs.key);
    assert EntriesOf(NoEntries, pairs).Entries?;
  }
}
