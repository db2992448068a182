/** Reconstructing the one chain of apply batches that leads on from the production base. */
module BatchChain {
  import opened Text

  type Sha = string

  datatype Batch = Batch(id: string, base: Sha, phase: string, commit: Sha)

  predicate Complete(b: Batch) {
    b.phase == "done" && b.commit != ""
  }

  predicate DistinctIds(batches: seq<Batch>) {
    forall i, j :: 0 <= i < j < |batches| ==> batches[i].id != batches[j].id
  }

  predicate DistinctBases(batches: seq<Batch>) {
    forall i, j :: 0 <= i < j < |batches| ==> batches[i].base != batches[j].base
  }

  /** The base the next batch must have. */
  function Expected(chain: seq<Batch>, prodBase: Sha): Sha {
    if chain == [] then prodBase else chain[|chain| - 1].commit
  }

  /** Each base is the commit before it, the first one the production base. */
  predicate Linked(order: seq<Batch>, prodBase: Sha) {
    forall k :: 0 <= k < |order| ==> order[k].base == Expected(order[..k], prodBase)
  }

  /** The batches, all complete and with distinct bases, in a linked order. */
  predicate IsChain(order: seq<Batch>, batches: seq<Batch>, prodBase: Sha) {
    && multiset(order) == multiset(batches) && Linked(order, prodBase)
    && DistinctBases(order) && forall k :: 0 <= k < |order| ==> Complete(order[k])
  }

  lemma SameMembers(x: seq<Batch>, y: seq<Batch>)
    requires multiset(x) == multiset(y)
    ensures |x| == |y| && forall b :: b in x <==> b in y
  {
    assert |x| == |multiset(x)| && |y| == |multiset(y)|;
    forall b ensures b in x <==> b in y {
      assert b in x <==> b in multiset(x);
    }
  }

  // ---- The last batch of every id --------------------------------------------------------------------------

  /** The batch is listed, and none after it has its id. */
  ghost predicate IsLast(b: Batch, batches: seq<Batch>) {
    exists k :: 0 <= k < |batches| && batches[k] == b && NoneAfter(batches, k)
  }

  predicate NoneAfter(batches: seq<Batch>, k: nat)
    requires k < |batches|
  {
    forall m :: k < m < |batches| ==> batches[m].id != batches[k].id
  }

  /** The batches without those that a later one of the same id replaces. */
  function Collapse(batches: seq<Batch>): seq<Batch> {
    if batches == [] then []
    else
      var rest := Collapse(batches[1..]);
      if HasId(rest, batches[0].id) then rest else [batches[0]] + rest
  }

  predicate HasId(batches: seq<Batch>, id: string) {
    exists b :: b in batches && b.id == id
  }

  lemma {:induction false} CollapseKeepsIds(batches: seq<Batch>, id: string)
    ensures HasId(Collapse(batches), id) <==> HasId(batches, id)
    decreases |batches|
  {
    if batches != [] {
      var rest := Collapse(batches[1..]);
      CollapseKeepsIds(batches[1..], id);
      FirstId(batches[0], rest, id);
      FirstId(batches[0], batches[1..], id);
      assert [batches[0]] + batches[1..] == batches;
    }
  }

  lemma FirstId(b: Batch, later: seq<Batch>, id: string)
    ensures HasId([b] + later, id) <==> b.id == id || HasId(later, id)
  {
    assert forall c :: c in [b] + later <==> c == b || c in later;
  }

  lemma {:induction false} CollapseKeepsLast(batches: seq<Batch>)
    ensures DistinctIds(Collapse(batches))
    ensures forall b :: b in Collapse(batches) <==> IsLast(b, batches)
    decreases |batches|
  {
    hide IsLast, HasId;
    if batches == [] {
      NothingLast();
    } else {
      CollapseKeepsLast(batches[1..]);
      CollapseKeepsIds(batches[1..], batches[0].id);
      if !HasId(Collapse(batches[1..]), batches[0].id) {
        NewId(batches[0], Collapse(batches[1..]));
      }
      forall b ensures b in Collapse(batches) <==> IsLast(b, batches) {
        LastOfTail(b, batches);
      }
    }
  }

  lemma NothingLast()
    ensures forall b :: !IsLast(b, [])
  {
  }

  lemma NewId(b: Batch, later: seq<Batch>)
    requires DistinctIds(later) && !HasId(later, b.id)
    ensures DistinctIds([b] + later)
  {
    forall i, j | 0 <= i < j < |[b] + later| ensures ([b] + later)[i].id != ([b] + later)[j].id {
      assert later[j - 1] in later;
    }
  }

  lemma LastOfTail(b: Batch, batches: seq<Batch>)
    requires batches != []
    ensures IsLast(b, batches) <==>
            IsLast(b, batches[1..]) || (b == batches[0] && !HasId(batches[1..], b.id))
  {
    var first, later := batches[0], batches[1..];
    if k :| 0 <= k < |batches| && batches[k] == b && NoneAfter(batches, k) {
      assert k > 0 ==> later[k - 1] == b && NoneAfter(later, k - 1);
      assert k == 0 ==> forall m :: 0 <= m < |later| ==> later[m] == batches[m + 1];
    }
    if k :| 0 <= k < |later| && later[k] == b && NoneAfter(later, k) {
      assert batches[k + 1] == b && NoneAfter(batches, k + 1);
    }
    if b == first && !HasId(later, b.id) {
      assert forall m :: 0 < m < |batches| ==> batches[m] == later[m - 1] && later[m - 1] in later;
      assert NoneAfter(batches, 0);
    }
  }

  /** `remaining`, as the values of the dictionary in its order. */
  method Remaining(batches: seq<Batch>) returns (items: seq<Batch>)
    ensures DistinctIds(items) && multiset(items) == multiset(Collapse(batches))
  {
    hide IsLast, Collapse, NoneAfter;
    var ids: seq<string>, m: map<string, Batch> := [], map[];
    var k := 0;
    while k < |batches|
      invariant k <= |batches| && Listed(ids, m)
      invariant forall i :: 0 <= i < k ==> batches[i].id in m
      invariant forall id :: id in m ==> m[id].id == id && IsLast(m[id], batches[..k])
    {
      var b := batches[k];
      forall id | id in m && id != b.id ensures IsLast(m[id], batches[..k + 1]) {
        LastStays(m[id], batches, k);
      }
      LatestIsLast(batches, k);
      if b.id !in m {
        ids := ids + [b.id];
      }
      m := m[b.id := b];
      k := k + 1;
    }
    assert batches[..|batches|] == batches;
    items := seq(|ids|, i requires 0 <= i < |ids| && ids[i] in m => m[ids[i]]);
    Collected(ids, m, items, batches);
  }

  /** The keys of the dictionary, in the order of their first assignment. */
  ghost predicate Listed(ids: seq<string>, m: map<string, Batch>) {
    && (forall id :: id in ids <==> id in m)
    && forall i, j :: 0 <= i < j < |ids| ==> ids[i] != ids[j]
  }

  lemma LatestIsLast(batches: seq<Batch>, k: nat)
    requires k < |batches|
    ensures IsLast(batches[k], batches[..k + 1])
  {
    assert batches[..k + 1][k] == batches[k] && NoneAfter(batches[..k + 1], k);
  }

  lemma Collected(ids: seq<string>, m: map<string, Batch>, items: seq<Batch>, batches: seq<Batch>)
    requires Listed(ids, m) && |items| == |ids|
    requires forall i :: 0 <= i < |ids| ==> ids[i] in m && items[i] == m[ids[i]]
    requires forall id :: id in m ==> m[id].id == id && IsLast(m[id], batches)
    requires forall i :: 0 <= i < |batches| ==> batches[i].id in m
    ensures DistinctIds(items) && multiset(items) == multiset(Collapse(batches))
  {
    hide Collapse, NoneAfter;
    CollapseKeepsLast(batches);
    forall b ensures b in items <==> IsLast(b, batches) {
      if IsLast(b, batches) {
        OneLast(b, m[b.id], batches);
        var i :| 0 <= i < |ids| && ids[i] == b.id;
        assert items[i] == b;
      }
    }
    SameItems(items, Collapse(batches));
  }

  lemma LastStays(b: Batch, batches: seq<Batch>, k: nat)
    requires k < |batches| && IsLast(b, batches[..k]) && b.id != batches[k].id
    ensures IsLast(b, batches[..k + 1])
  {
    var i :| 0 <= i < k && batches[..k][i] == b && NoneAfter(batches[..k], i);
    var longer := batches[..k + 1];
    assert forall m :: 0 <= m < k ==> longer[m] == batches[..k][m];
    assert longer[i] == b && NoneAfter(longer, i);
  }

  lemma OneLast(b: Batch, c: Batch, batches: seq<Batch>)
    requires IsLast(b, batches) && IsLast(c, batches) && b.id == c.id
    ensures b == c
  {
    var i :| 0 <= i < |batches| && batches[i] == b && NoneAfter(batches, i);
    var j :| 0 <= j < |batches| && batches[j] == c && NoneAfter(batches, j);
    assert i == j;
  }

  lemma SameItems(x: seq<Batch>, y: seq<Batch>)
    requires DistinctIds(x) && DistinctIds(y) && forall b :: b in x <==> b in y
    ensures multiset(x) == multiset(y)
  {
    forall b ensures multiset(x)[b] == multiset(y)[b] {
      NoRepeats(x, b);
      NoRepeats(y, b);
      assert b in x <==> b in multiset(x);
      assert b in y <==> b in multiset(y);
    }
  }

  /** `by_base`; `None` when two batches share a base. */
  method ByBase(batches: seq<Batch>) returns (r: Option<map<Sha, Batch>>)
    ensures r.Some? <==> DistinctBases(batches)
    ensures r.Some? ==> (forall b :: b in batches ==> b.base in r.value && r.value[b.base] == b) &&
                        (forall base :: base in r.value ==> r.value[base] in batches && r.value[base].base == base)
  {
    var m: map<Sha, Batch> := map[];
    var k := 0;
    while k < |batches|
      invariant k <= |batches| && DistinctBases(batches[..k])
      invariant forall i :: 0 <= i < k ==> batches[i].base in m && m[batches[i].base] == batches[i]
      invariant forall base :: base in m ==> m[base] in batches[..k] && m[base].base == base
    {
      assert batches[..k + 1] == batches[..k] + [batches[k]];
      if batches[k].base in m {
        var i :| 0 <= i < k && batches[i] == m[batches[k].base];
        return None;
      }
      m := m[batches[k].base := batches[k]];
      k := k + 1;
    }
    assert batches[..|batches|] == batches;
    return Some(m);
  }

  lemma Taken(chain: seq<Batch>, batches: seq<Batch>, remaining: set<string>, b: Batch)
    requires DistinctIds(batches) && multiset(chain) <= multiset(batches) && b in batches && b.id in remaining
    requires forall c :: c in batches ==> (c.id in remaining <==> c !in chain)
    ensures multiset(chain + [b]) <= multiset(batches)
    ensures forall c :: c in batches ==> (c.id in remaining - {b.id} <==> c !in chain + [b])
  {
    assert b !in chain && multiset(chain)[b] == 0 && b in multiset(batches);
    forall c | c in batches ensures c.id in remaining - {b.id} <==> c !in chain + [b] {
      OneById(batches, b, c);
    }
  }

  lemma OneById(batches: seq<Batch>, b: Batch, c: Batch)
    requires DistinctIds(batches) && b in batches && c in batches
    ensures b.id == c.id <==> b == c
  {
    var i :| 0 <= i < |batches| && batches[i] == b;
    var j :| 0 <= j < |batches| && batches[j] == c;
  }

  lemma {:induction false} NoRepeats(batches: seq<Batch>, b: Batch)
    requires DistinctIds(batches)
    ensures multiset(batches)[b] <= 1
    decreases |batches|
  {
    if batches != [] {
      var before, last := batches[..|batches| - 1], batches[|batches| - 1];
      NoRepeats(before, b);
      assert batches == before + [last];
      assert forall k :: 0 <= k < |before| ==> before[k] == batches[k] != last;
    }
  }

  lemma AllTaken(chain: seq<Batch>, batches: seq<Batch>)
    requires DistinctIds(batches) && multiset(chain) <= multiset(batches) && forall c :: c in batches ==> c in chain
    ensures multiset(chain) == multiset(batches)
  {
    forall b ensures multiset(chain)[b] == multiset(batches)[b] {
      NoRepeats(batches, b);
      assert b in chain <==> b in multiset(chain);
      assert b in batches <==> b in multiset(batches);
    }
  }

  /** While any chain exists, the batch on the expected base is its next one. */
  lemma NextOfChain(order: seq<Batch>, batches: seq<Batch>, prodBase: Sha, m: map<Sha, Batch>, k: nat)
    requires IsChain(order, batches, prodBase) && k < |order|
    requires forall b :: b in batches ==> b.base in m && m[b.base] == b
    ensures var expected := Expected(order[..k], prodBase);
            expected in m && m[expected] == order[k] && Complete(order[k])
  {
    SameMembers(order, batches);
    assert order[k] in batches;
    assert m[order[k].base] == order[k];
  }

  lemma PermutedBases(x: seq<Batch>, y: seq<Batch>)
    requires multiset(x) == multiset(y) && DistinctBases(x) && DistinctIds(y)
    ensures DistinctBases(y)
  {
    SameMembers(x, y);
    forall i, j | 0 <= i < j < |y| ensures y[i].base != y[j].base {
      assert y[i] in x && y[j] in x;
      var m :| 0 <= m < |x| && x[m] == y[i];
      var n :| 0 <= n < |x| && x[n] == y[j];
    }
  }

  lemma PermutedIds(x: seq<Batch>, y: seq<Batch>)
    requires multiset(x) == multiset(y) && DistinctBases(y)
    ensures DistinctBases(x)
    decreases |x|
  {
    SameMembers(x, y);
    forall i, j | 0 <= i < j < |x| ensures x[i].base != x[j].base {
      if x[i].base == x[j].base {
        assert x[i] in y && x[j] in y;
        var m :| 0 <= m < |y| && y[m] == x[i];
        var n :| 0 <= n < |y| && y[n] == x[j];
        assert m == n;
        assert x == x[..j] + [x[j]] + x[j + 1..] && x[..j][i] in multiset(x[..j]);
        Once(y, m);
      }
    }
  }

  lemma Once(y: seq<Batch>, m: nat)
    requires m < |y| && DistinctBases(y)
    ensures multiset(y)[y[m]] == 1
  {
    assert y == y[..m] + [y[m]] + y[m + 1..];
    assert forall k :: 0 <= k < |y| && k != m ==> y[k].base != y[m].base;
    assert y[m] !in y[..m] && y[m] !in y[m + 1..];
    assert multiset(y[..m])[y[m]] == 0 && multiset(y[m + 1..])[y[m]] == 0;
  }

  /**
   `_chain`.  Of batches with one id the last counts.  It succeeds exactly when some order of these is a chain, and
   then returns that order: the only one, whatever order they were given in.
   */
  method Chain(batches: seq<Batch>, prodBase: Sha) returns (r: Option<seq<Batch>>)
    ensures r.Some? ==> IsChain(r.value, Collapse(batches), prodBase)
    ensures forall order :: IsChain(order, Collapse(batches), prodBase) ==> r == Some(order)
  {
    hide Linked, DistinctBases, Complete, Collapse;
    var items := Remaining(batches);
    r := ChainOf(items, prodBase);
    forall order ensures IsChain(order, items, prodBase) <==> IsChain(order, Collapse(batches), prodBase) {
    }
  }

  /** The rest of it, on the values of `remaining`. */
  method ChainOf(batches: seq<Batch>, prodBase: Sha) returns (r: Option<seq<Batch>>)
    requires DistinctIds(batches)
    ensures r.Some? ==> IsChain(r.value, batches, prodBase)
    ensures forall order :: IsChain(order, batches, prodBase) ==> r == Some(order)
  {
    hide IsChain, Linked, DistinctBases, DistinctIds, Progress, Complete;
    var byBase := ByBase(batches);
    if byBase.None? {
      NoChain(batches, prodBase);
      return None;
    }
    var m := byBase.value;
    var remaining := set b | b in batches :: b.id;
    var chain: seq<Batch>, expected := [], prodBase;
    Begun(batches, prodBase);
    while remaining != {}
      invariant Progress(chain, expected, remaining, batches, prodBase)
      decreases remaining
    {
      forall order | IsChain(order, batches, prodBase)
        ensures expected in m && m[expected].id in remaining && Complete(m[expected]) && chain + [m[expected]] <= order
      {
        Longer(order, chain, batches, prodBase, m, remaining, expected);
      }
      if expected !in m || m[expected].id !in remaining {
        return None;
      }
      var item := m[expected];
      IsComplete(item);
      if item.phase != "done" || item.commit == "" {
        return None;
      }
      Advanced(chain, expected, remaining, batches, prodBase, item);
      chain, expected, remaining := chain + [item], item.commit, remaining - {item.id};
    }
    Finished(chain, expected, batches, prodBase);
    return Some(chain);
  }

  lemma IsComplete(b: Batch)
    ensures Complete(b) <==> b.phase == "done" && b.commit != ""
  {
  }

  /** The chain so far is a prefix of every chain there is, and the rest of the batches remain. */
  ghost predicate Progress(chain: seq<Batch>, expected: Sha, remaining: set<string>, batches: seq<Batch>,
      prodBase: Sha) {
    && expected == Expected(chain, prodBase)
    && Linked(chain, prodBase) && (forall k :: 0 <= k < |chain| ==> Complete(chain[k]))
    && multiset(chain) <= multiset(batches) && remaining <= (set b | b in batches :: b.id)
    && (forall c :: c in batches ==> (c.id in remaining <==> c !in chain))
    && forall order :: IsChain(order, batches, prodBase) ==> chain <= order
  }

  lemma Begun(batches: seq<Batch>, prodBase: Sha)
    ensures Progress([], prodBase, set b | b in batches :: b.id, batches, prodBase)
  {
    hide IsChain;
  }

  lemma Advanced(chain: seq<Batch>, expected: Sha, remaining: set<string>, batches: seq<Batch>, prodBase: Sha,
      item: Batch)
    requires Progress(chain, expected, remaining, batches, prodBase) && DistinctIds(batches)
    requires item in batches && item.id in remaining && item.base == expected && Complete(item)
    requires forall order :: IsChain(order, batches, prodBase) ==> chain + [item] <= order
    ensures Progress(chain + [item], item.commit, remaining - {item.id}, batches, prodBase)
  {
    hide IsChain, DistinctIds, Complete;
    Taken(chain, batches, remaining, item);
    var longer := chain + [item];
    forall k | 0 <= k < |longer| ensures longer[k].base == Expected(longer[..k], prodBase) && Complete(longer[k]) {
      assert longer[..k] == chain[..k];
      assert k < |chain| ==> longer[k] == chain[k];
      assert k == |chain| ==> chain[..k] == chain;
    }
  }

  lemma NoChain(batches: seq<Batch>, prodBase: Sha)
    requires !DistinctBases(batches) && DistinctIds(batches)
    ensures forall order :: !IsChain(order, batches, prodBase)
  {
    forall order ensures !IsChain(order, batches, prodBase) {
      if IsChain(order, batches, prodBase) {
        PermutedBases(order, batches);
      }
    }
  }

  lemma Longer(order: seq<Batch>, chain: seq<Batch>, batches: seq<Batch>, prodBase: Sha, m: map<Sha, Batch>,
               remaining: set<string>, expected: Sha)
    requires IsChain(order, batches, prodBase) && Progress(chain, expected, remaining, batches, prodBase)
             && remaining != {}
    requires forall b :: b in batches ==> b.base in m && m[b.base] == b
    ensures expected in m && m[expected].id in remaining && Complete(m[expected]) && chain + [m[expected]] <= order
  {
    hide Linked, Complete;
    SameMembers(order, batches);
    SomeLeft(order, chain, batches, remaining);
    NextOfChain(order, batches, prodBase, m, |chain|);
    NotYet(order, chain);
    assert order[|chain|] in order;
  }

  lemma SomeLeft(order: seq<Batch>, chain: seq<Batch>, batches: seq<Batch>, remaining: set<string>)
    requires (forall b :: b in order <==> b in batches) && chain <= order && remaining != {}
    requires remaining <= (set b | b in batches :: b.id) && forall c :: c in batches ==>
             (c.id in remaining <==> c !in chain)
    ensures |chain| < |order|
  {
    var id :| id in remaining;
    var b :| b in batches && b.id == id;
    assert b in order && b !in chain;
  }

  lemma NotYet(order: seq<Batch>, chain: seq<Batch>)
    requires DistinctBases(order) && chain <= order && |chain| < |order|
    ensures order[|chain|] !in chain && order[..|chain|] == chain
  {
    forall k | 0 <= k < |chain| ensures chain[k] != order[|chain|] {
      assert chain[k] == order[k] && order[k].base != order[|chain|].base;
    }
  }

  lemma Finished(chain: seq<Batch>, expected: Sha, batches: seq<Batch>, prodBase: Sha)
    requires Progress(chain, expected, {}, batches, prodBase) && DistinctBases(batches) && DistinctIds(batches)
    ensures IsChain(chain, batches, prodBase) && forall order :: IsChain(order, batches, prodBase) ==> order == chain
  {
    AllTaken(chain, batches);
    PermutedIds(chain, batches);
    forall order | IsChain(order, batches, prodBase) ensures order == chain {
      SameMembers(order, batches);
      SameMembers(chain, batches);
      assert chain <= order;
    }
  }
}
