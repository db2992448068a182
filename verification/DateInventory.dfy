/** The final accounting of full dates: every occurrence in the raw text is categorised exactly once. */
module DateInventory {

  /** A source path with a date literal found in it. */
  datatype Key = Key(source: string, literal: string)

  /** The larger multiplicity of each key. */
  ghost predicate IsJoin(c: multiset<Key>, a: multiset<Key>, b: multiset<Key>) {
    forall key :: c[key] == if a[key] > b[key] then a[key] else b[key]
  }

  lemma {:induction false} JoinSize(a: multiset<Key>, b: multiset<Key>, c: multiset<Key>)
    requires IsJoin(c, a, b)
    ensures |c| >= |b| && (|c| == |b| <==> a <= b) && (a <= b ==> c == b)
  {
    assert c == b + (c - b);
    if a <= b {
      assert c == b;
    }
    if |c - b| == 0 {
      forall key ensures a[key] <= b[key] {
        assert (c - b)[key] == 0;
      }
    }
  }

  lemma JoinEmpty(a: multiset<Key>)
    ensures IsJoin(a, a, multiset{})
  {
  }

  lemma JoinStep(c: multiset<Key>, a: multiset<Key>, b: multiset<Key>, key: Key)
    requires IsJoin(c, a, b)
    ensures IsJoin(if (b + multiset{key})[key] > c[key] then c + multiset{key} else c, a, b + multiset{key})
  {
  }

  /**
   The reconciliation loop.  `categorized` starts with the rows already converted, held out or listed;
   an occurrence beyond that count is listed as unclassified.  Afterwards each key is categorised as often
   as the larger of the two counts, and the closing sum check passes exactly when no key was categorised
   more often than it occurs.
   */
  method Reconcile(inventory: seq<Key>, initial: multiset<Key>)
    returns (categorized: multiset<Key>, added: seq<Key>, passed: bool)
    ensures IsJoin(categorized, initial, multiset(inventory))
    ensures categorized == initial + multiset(added)
    ensures passed <==> initial <= multiset(inventory)
    ensures passed ==> categorized == multiset(inventory)
  {
    hide IsJoin;
    JoinEmpty(initial);
    categorized, added := initial, [];
    var seen: multiset<Key> := multiset{};
    var k := 0;
    while k < |inventory|
      invariant k <= |inventory| && seen == multiset(inventory[..k])
      invariant IsJoin(categorized, initial, seen) && categorized == initial + multiset(added)
    {
      var key := inventory[k];
      assert inventory[..k + 1] == inventory[..k] + [key];
      JoinStep(categorized, initial, seen, key);
      seen := seen + multiset{key};
      if seen[key] > categorized[key] {
        added := added + [key];
        categorized := categorized + multiset{key};
      }
      k := k + 1;
    }
    assert inventory[..|inventory|] == inventory;
    JoinSize(initial, multiset(inventory), categorized);
    passed := |initial| + |added| == |inventory|;
  }
}
