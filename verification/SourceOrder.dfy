/** Stable sorting by string triples, as Python sorts them, and why it forgets the order of its input. */
module SourceOrder {
  // ---- Python's order on strings and string triples ---------------------------------------------------

  predicate Less(s: string, t: string) {
    t != "" && (s == "" || s[0] < t[0] || (s[0] == t[0] && Less(s[1..], t[1..])))
  }

  datatype SortKey = SortKey(source: string, locator: string, literal: string)

  predicate Before(a: SortKey, b: SortKey) {
    || Less(a.source, b.source)
    || (a.source == b.source && (Less(a.locator, b.locator) || (a.locator == b.locator && Less(a.literal, b.literal))))
  }

  lemma {:induction false} LessIsTotal(s: string, t: string)
    ensures Less(s, t) || s == t || Less(t, s)
    ensures !(Less(s, t) && Less(t, s)) && !Less(s, s)
    decreases |s|
  {
    if s != "" && t != "" {
      LessIsTotal(s[1..], t[1..]);
      LessIsTotal(s[1..], s[1..]);
      assert s == [s[0]] + s[1..] && t == [t[0]] + t[1..];
    } else if s != "" {
      LessIsTotal(s[1..], s[1..]);
    }
  }

  lemma {:induction false} LessIsTransitive(s: string, t: string, u: string)
    requires Less(s, t) && Less(t, u)
    ensures Less(s, u)
    decreases |s|
  {
    if s != "" && s[0] == t[0] == u[0] {
      LessIsTransitive(s[1..], t[1..], u[1..]);
    }
  }

  lemma BeforeIsAnOrder(a: SortKey, b: SortKey, c: SortKey)
    ensures Before(a, b) || a == b || Before(b, a)
    ensures !(Before(a, b) && Before(b, a)) && !Before(a, a)
    ensures Before(a, b) && Before(b, c) ==> Before(a, c)
  {
    hide Less;
    LessIsTotal(a.source, b.source);
    LessIsTotal(a.locator, b.locator);
    LessIsTotal(a.literal, b.literal);
    LessIsTotal(a.source, a.source);
    LessIsTotal(a.locator, a.locator);
    LessIsTotal(a.literal, a.literal);
    if Less(a.source, b.source) && Less(b.source, c.source) {
      LessIsTransitive(a.source, b.source, c.source);
    }
    if Less(a.locator, b.locator) && Less(b.locator, c.locator) {
      LessIsTransitive(a.locator, b.locator, c.locator);
    }
    if Less(a.literal, b.literal) && Less(b.literal, c.literal) {
      LessIsTransitive(a.literal, b.literal, c.literal);
    }
  }

  // ---- Stable sorting ------------------------------------------------------------------------------------

  function Insert<T>(x: T, xs: seq<T>, key: T -> SortKey): seq<T> {
    if xs == [] || Before(key(x), key(xs[0])) then [x] + xs else [xs[0]] + Insert(x, xs[1..], key)
  }

  function Sort<T>(xs: seq<T>, key: T -> SortKey): seq<T> {
    if xs == [] then [] else Insert(xs[|xs| - 1], Sort(xs[..|xs| - 1], key), key)
  }

  /** No row of `xs` belongs before `x`. */
  predicate Least<T(==)>(x: T, xs: seq<T>, key: T -> SortKey) {
    forall y :: y in xs ==> !Before(key(y), key(x))
  }

  predicate Sorted<T(==)>(xs: seq<T>, key: T -> SortKey) {
    xs == [] || (Least(xs[0], xs[1..], key) && Sorted(xs[1..], key))
  }

  predicate NewKey<T(==)>(x: T, xs: seq<T>, key: T -> SortKey) {
    forall y :: y in xs ==> key(y) != key(x)
  }

  predicate DistinctKeys<T(==)>(xs: seq<T>, key: T -> SortKey) {
    xs == [] || (NewKey(xs[0], xs[1..], key) && DistinctKeys(xs[1..], key))
  }

  lemma HeadFirst<T>(xs: seq<T>)
    requires xs != []
    ensures multiset(xs) == multiset{xs[0]} + multiset(xs[1..])
    ensures forall y :: y in xs <==> y == xs[0] || y in xs[1..]
  {
    assert xs == [xs[0]] + xs[1..];
  }

  lemma {:induction false} InsertMembers<T>(x: T, xs: seq<T>, key: T -> SortKey)
    ensures multiset(Insert(x, xs, key)) == multiset{x} + multiset(xs)
    ensures forall y: T :: y in Insert(x, xs, key) <==> y == x || y in xs
    decreases |xs|
  {
    hide Before;
    if xs != [] {
      HeadFirst(xs);
      InsertMembers(x, xs[1..], key);
    }
  }

  lemma LeastBefore<T>(x: T, xs: seq<T>, key: T -> SortKey)
    requires xs != [] && Least(xs[0], xs[1..], key) && Before(key(x), key(xs[0]))
    ensures Least(x, xs, key)
  {
    hide Before;
    HeadFirst(xs);
    forall y | y in xs ensures !Before(key(y), key(x)) {
      BeforeIsAnOrder(key(y), key(x), key(xs[0]));
      BeforeIsAnOrder(key(xs[0]), key(xs[0]), key(xs[0]));
    }
  }

  lemma LeastInserted<T>(z: T, x: T, xs: seq<T>, key: T -> SortKey)
    requires Least(z, xs, key) && !Before(key(x), key(z))
    ensures Least(z, Insert(x, xs, key), key)
  {
    hide Before;
    InsertMembers(x, xs, key);
    var r := Insert(x, xs, key);
    forall y: T | y in r ensures !Before(key(y), key(z)) {
      assert y in multiset(r);
      if y != x {
        assert y in xs;
      }
    }
  }

  lemma {:induction false} InsertSorted<T>(x: T, xs: seq<T>, key: T -> SortKey)
    requires Sorted(xs, key)
    ensures Sorted(Insert(x, xs, key), key)
    decreases |xs|
  {
    hide Before, Least;
    var r := Insert(x, xs, key);
    if xs == [] {
      LeastOfNothing(x, key);
      assert r[1..] == [];
    } else if Before(key(x), key(xs[0])) {
      assert r[1..] == xs;
      LeastBefore(x, xs, key);
    } else {
      assert r[1..] == Insert(x, xs[1..], key);
      InsertSorted(x, xs[1..], key);
      LeastInserted(xs[0], x, xs[1..], key);
    }
  }

  lemma LeastOfNothing<T>(x: T, key: T -> SortKey)
    ensures Least(x, [], key)
  {
  }

  lemma LastAlso<T>(xs: seq<T>)
    requires xs != []
    ensures multiset(xs) == multiset(xs[..|xs| - 1]) + multiset{xs[|xs| - 1]}
  {
    assert xs == xs[..|xs| - 1] + [xs[|xs| - 1]];
  }

  lemma {:induction false} SortSorted<T>(xs: seq<T>, key: T -> SortKey)
    ensures multiset(Sort(xs, key)) == multiset(xs) && Sorted(Sort(xs, key), key)
    decreases |xs|
  {
    hide Before, Insert, Least;
    if xs != [] {
      var before, last := xs[..|xs| - 1], xs[|xs| - 1];
      var s := Sort(before, key);
      SortSorted(before, key);
      InsertSorted(last, s, key);
      InsertMembers(last, s, key);
      LastAlso(xs);
    }
  }

  lemma MembersOfMultiset<T>(xs: seq<T>, ys: seq<T>)
    requires multiset(xs) == multiset(ys)
    ensures |xs| == |ys| && forall y :: y in xs <==> y in ys
  {
    assert |xs| == |multiset(xs)| && |ys| == |multiset(ys)|;
    forall y ensures y in xs <==> y in ys {
      assert y in xs <==> y in multiset(xs);
    }
  }

  /** Two sorted arrangements of the same rows agree when no two rows share a key. */
  lemma {:induction false} SortedIsUnique<T>(xs: seq<T>, ys: seq<T>, key: T -> SortKey)
    requires Sorted(xs, key) && Sorted(ys, key) && multiset(xs) == multiset(ys) && DistinctKeys(xs, key)
    ensures xs == ys
    decreases |xs|
  {
    hide Before;
    MembersOfMultiset(xs, ys);
    if xs != [] {
      HeadFirst(xs);
      HeadFirst(ys);
      BeforeIsAnOrder(key(xs[0]), key(ys[0]), key(xs[0]));
      assert xs[0] in ys && ys[0] in xs;
      assert xs[0] == ys[0];
      assert multiset(xs[1..]) == multiset(xs) - multiset{xs[0]};
      assert multiset(ys[1..]) == multiset(ys) - multiset{ys[0]};
      SortedIsUnique(xs[1..], ys[1..], key);
    }
  }

  lemma {:induction false} DistinctRemove<T>(xs: seq<T>, k: nat, key: T -> SortKey)
    requires k < |xs| && DistinctKeys(xs, key)
    ensures DistinctKeys(xs[..k] + xs[k + 1..], key) && NewKey(xs[k], xs[..k] + xs[k + 1..], key)
    decreases |xs|
  {
    HeadFirst(xs);
    var r := xs[..k] + xs[k + 1..];
    if k == 0 {
      assert r == xs[1..];
    } else {
      var s := xs[1..];
      DistinctRemove(s, k - 1, key);
      assert s[..k - 1] + s[k..] == r[1..];
      HeadFirst(r);
      assert s[k - 1] == xs[k];
      forall y | y in r[1..] ensures y in xs[1..] {
        assert y in s[..k - 1] || y in s[k..];
      }
    }
  }

  /** Taking the first of one arrangement out of the other. */
  lemma TakeFirst<T>(xs: seq<T>, ys: seq<T>) returns (k: nat)
    requires multiset(xs) == multiset(ys) && ys != []
    ensures k < |xs| && xs[k] == ys[0] && multiset(xs[..k] + xs[k + 1..]) == multiset(ys[1..])
  {
    MembersOfMultiset(xs, ys);
    assert ys[0] in xs;
    k :| 0 <= k < |xs| && xs[k] == ys[0];
    assert xs == xs[..k] + [xs[k]] + xs[k + 1..];
    assert ys == [ys[0]] + ys[1..];
    assert multiset(xs[..k] + xs[k + 1..]) == multiset(xs) - multiset{ys[0]};
    assert multiset(ys[1..]) == multiset(ys) - multiset{ys[0]};
  }

  lemma NewKeyKept<T>(x: T, xs: seq<T>, ys: seq<T>, key: T -> SortKey)
    requires multiset(xs) == multiset(ys) && NewKey(x, xs, key)
    ensures NewKey(x, ys, key)
  {
    MembersOfMultiset(xs, ys);
  }

  lemma {:induction false} DistinctKept<T>(xs: seq<T>, ys: seq<T>, key: T -> SortKey)
    requires multiset(xs) == multiset(ys) && DistinctKeys(xs, key)
    ensures DistinctKeys(ys, key)
    decreases |ys|
  {
    hide NewKey;
    if ys != [] {
      var k := TakeFirst(xs, ys);
      var rest := xs[..k] + xs[k + 1..];
      DistinctRemove(xs, k, key);
      NewKeyKept(xs[k], rest, ys[1..], key);
      DistinctKept(rest, ys[1..], key);
    }
  }

  /** Sorting forgets the order of its input when keys are distinct. */
  lemma SortForgetsOrder<T>(xs: seq<T>, ys: seq<T>, key: T -> SortKey)
    requires multiset(xs) == multiset(ys) && DistinctKeys(xs, key)
    ensures Sort(xs, key) == Sort(ys, key)
  {
    SortSorted(xs, key);
    SortSorted(ys, key);
    DistinctKept(xs, Sort(xs, key), key);
    SortedIsUnique(Sort(xs, key), Sort(ys, key), key);
  }

  // ---- The same, by positions ------------------------------------------------------------------------------

  /** At the first place where they differ the smaller code point decides; a beginning comes first. */
  lemma {:induction false} LessIsLexicographic(s: string, t: string)
    ensures Less(s, t) <==>
            exists n :: 0 <= n <= |s| && n < |t| && s[..n] == t[..n] && (n < |s| ==> s[n] < t[n])
    decreases |s|
  {
    if s == "" {
      assert t != "" ==> s[..0] == t[..0];
    } else if t != "" {
      LessIsLexicographic(s[1..], t[1..]);
      if s[0] == t[0] && Less(s[1..], t[1..]) {
        var n :| 0 <= n <= |s[1..]| && n < |t[1..]| && s[1..][..n] == t[1..][..n] &&
                 (n < |s[1..]| ==> s[1..][n] < t[1..][n]);
        assert s[..n + 1] == [s[0]] + s[1..][..n] && t[..n + 1] == [t[0]] + t[1..][..n];
      } else if s[0] < t[0] {
        assert s[..0] == t[..0];
      }
      if n :| 0 <= n <= |s| && n < |t| && s[..n] == t[..n] && (n < |s| ==> s[n] < t[n]) {
        if n > 0 {
          assert s[0] == s[..n][0] == t[..n][0] == t[0];
          assert s[1..][..n - 1] == s[..n][1..] == t[..n][1..] == t[1..][..n - 1];
        }
      }
    }
  }

  lemma {:induction false} SortedByPosition<T>(xs: seq<T>, key: T -> SortKey)
    ensures Sorted(xs, key) <==> forall i, j :: 0 <= i < j < |xs| ==> !Before(key(xs[j]), key(xs[i]))
    decreases |xs|
  {
    hide Before;
    if xs != [] {
      var rest := xs[1..];
      SortedByPosition(rest, key);
      assert forall j :: 1 <= j < |xs| ==> xs[j] == rest[j - 1] && xs[j] in rest;
      if forall i, j :: 0 <= i < j < |xs| ==> !Before(key(xs[j]), key(xs[i])) {
        forall i, j | 0 <= i < j < |rest| ensures !Before(key(rest[j]), key(rest[i])) {
          assert !Before(key(xs[j + 1]), key(xs[i + 1]));
        }
      }
    }
  }

  lemma {:induction false} DistinctByPosition<T>(xs: seq<T>, key: T -> SortKey)
    ensures DistinctKeys(xs, key) <==> forall i, j :: 0 <= i < j < |xs| ==> key(xs[i]) != key(xs[j])
    decreases |xs|
  {
    if xs != [] {
      var rest := xs[1..];
      DistinctByPosition(rest, key);
      assert forall j :: 1 <= j < |xs| ==> xs[j] == rest[j - 1] && xs[j] in rest;
      if forall i, j :: 0 <= i < j < |xs| ==> key(xs[i]) != key(xs[j]) {
        forall i, j | 0 <= i < j < |rest| ensures key(rest[i]) != key(rest[j]) {
          assert key(xs[i + 1]) != key(xs[j + 1]);
        }
      }
    }
  }

  // ---- Stability ---------------------------------------------------------------------------------------------

  /** The rows with one key, in order. */
  function WithKey<T>(xs: seq<T>, k: SortKey, key: T -> SortKey): seq<T> {
    if xs == [] then [] else (if key(xs[0]) == k then [xs[0]] else []) + WithKey(xs[1..], k, key)
  }

  lemma {:induction false} WithKeyJoin<T>(xs: seq<T>, ys: seq<T>, k: SortKey, key: T -> SortKey)
    ensures WithKey(xs + ys, k, key) == WithKey(xs, k, key) + WithKey(ys, k, key)
    decreases |xs|
  {
    if xs == [] {
      assert xs + ys == ys;
    } else {
      assert (xs + ys)[1..] == xs[1..] + ys;
      WithKeyJoin(xs[1..], ys, k, key);
    }
  }

  lemma {:induction false} NoneWithKey<T>(xs: seq<T>, k: SortKey, key: T -> SortKey)
    requires forall x :: x in xs ==> key(x) != k
    ensures WithKey(xs, k, key) == []
    decreases |xs|
  {
    if xs != [] {
      NoneWithKey(xs[1..], k, key);
    }
  }

  lemma WithKeyFirst<T>(x: T, xs: seq<T>, k: SortKey, key: T -> SortKey)
    ensures WithKey([x] + xs, k, key) == (if key(x) == k then [x] else []) + WithKey(xs, k, key)
  {
    assert ([x] + xs)[1..] == xs;
  }

  /** What comes before the first row of a sorted list shares its key with none of them. */
  lemma BeforeAll<T>(x: T, xs: seq<T>, key: T -> SortKey)
    requires Sorted(xs, key) && xs != [] && Before(key(x), key(xs[0]))
    ensures forall y :: y in xs ==> key(y) != key(x)
  {
    hide Before, Sorted;
    FirstIsLeast(xs, key);
    forall y | y in xs ensures key(y) != key(x) {
      BeforeIsAnOrder(key(xs[0]), key(y), key(x));
      BeforeIsAnOrder(key(x), key(xs[0]), key(y));
    }
  }

  lemma FirstIsLeast<T>(xs: seq<T>, key: T -> SortKey)
    requires Sorted(xs, key) && xs != []
    ensures forall y :: y in xs ==> !Before(key(y), key(xs[0]))
  {
    hide Before;
    HeadFirst(xs);
    BeforeIsAnOrder(key(xs[0]), key(xs[0]), key(xs[0]));
  }

  lemma {:induction false} InsertStable<T>(x: T, xs: seq<T>, k: SortKey, key: T -> SortKey)
    requires Sorted(xs, key)
    ensures WithKey(Insert(x, xs, key), k, key) == WithKey(xs, k, key) + if key(x) == k then [x] else []
    decreases |xs|
  {
    hide Before, WithKey, Least;
    if xs == [] || Before(key(x), key(xs[0])) {
      WithKeyFirst(x, xs, k, key);
      if xs != [] && key(x) == k {
        BeforeAll(x, xs, key);
        NoneWithKey(xs, k, key);
      } else if xs == [] {
        NoneWithKey(xs, k, key);
      }
    } else {
      InsertStable(x, xs[1..], k, key);
      WithKeyFirst(xs[0], Insert(x, xs[1..], key), k, key);
      WithKeyFirst(xs[0], xs[1..], k, key);
      assert xs == [xs[0]] + xs[1..];
    }
  }

  /** Rows with the same key keep their order. */
  lemma {:induction false} SortIsStable<T>(xs: seq<T>, k: SortKey, key: T -> SortKey)
    ensures WithKey(Sort(xs, key), k, key) == WithKey(xs, k, key)
    decreases |xs|
  {
    if xs != [] {
      var before, last := xs[..|xs| - 1], xs[|xs| - 1];
      SortIsStable(before, k, key);
      SortSorted(before, key);
      InsertStable(last, Sort(before, key), k, key);
      assert xs == before + [last] && [last][1..] == [];
      WithKeyJoin(before, [last], k, key);
    }
  }
}
