/** Validation accepts what a first review produced, and exactly that. */
module ReviewFixpoint {
  import opened Text
  import opened SourceOrder
  import opened ReviewResolution

  // ---- The synthetic pending pair has the governed keys ------------------------------------------------

  predicate NoTwice(xs: seq<string>) {
    forall i, j :: 0 <= i < j < |xs| ==> xs[i] != xs[j]
  }

  lemma {:induction false} CountOnce(xs: seq<string>, x: string)
    requires NoTwice(xs)
    ensures multiset(xs)[x] == if x in xs then 1 else 0
    decreases |xs|
  {
    if xs != [] {
      var before, last := xs[..|xs| - 1], xs[|xs| - 1];
      CountOnce(before, x);
      assert xs == before + [last];
      assert forall k :: 0 <= k < |before| ==> before[k] == xs[k] != last;
    }
  }

  lemma SameKeys(xs: seq<string>, ys: seq<string>)
    requires NoTwice(xs) && NoTwice(ys) && KeySet(xs) == KeySet(ys)
    ensures multiset(xs) == multiset(ys)
  {
    forall x ensures multiset(xs)[x] == multiset(ys)[x] {
      CountOnce(xs, x);
      CountOnce(ys, x);
      assert x in xs <==> x in KeySet(xs);
      assert x in ys <==> x in KeySet(ys);
    }
  }

  /** Proposals name one of the two categories. */
  predicate Categorised(rows: seq<Proposed>) {
    forall k :: 0 <= k < |rows| ==> rows[k].category == HOLDOUT || rows[k].category == ATTENTION
  }

  lemma KeyInitial(category: string, id: Identity)
    requires category != ""
    ensures JoinedKey(category, id) != "" && JoinedKey(category, id)[0] == category[0]
  {
  }

  /** The keys of the proposals of one category, in order. */
  function KeysOf(rows: seq<Proposed>, category: string): seq<string> {
    if rows == [] then []
    else
      var last := rows[|rows| - 1];
      KeysOf(rows[..|rows| - 1], category) + if last.category == category then [last.key] else []
  }

  lemma {:induction false} KeysOfMembers(rows: seq<Proposed>, category: string)
    ensures forall key :: key in KeysOf(rows, category) <==>
            exists p :: p in rows && p.category == category && p.key == key
    decreases |rows|
  {
    if rows != [] {
      var before, last := rows[..|rows| - 1], rows[|rows| - 1];
      KeysOfMembers(before, category);
      assert rows == before + [last];
    }
  }

  lemma {:induction false} KeysOfDistinct(rows: seq<Proposed>, category: string)
    requires DistinctKeys(rows, ProposedKey)
    ensures NoTwice(KeysOf(rows, category))
    decreases |rows|
  {
    if rows != [] {
      var before, last := rows[..|rows| - 1], rows[|rows| - 1];
      assert rows == before + [last];
      DistinctSnoc(before, last, ProposedKey);
      KeysOfDistinct(before, category);
      KeysOfMembers(before, category);
      if last.category == category && last.key in KeysOf(before, category) {
        var p :| p in before && p.category == category && p.key == last.key;
        assert ProposedKey(p) == ProposedKey(last);
      }
    }
  }

  lemma {:induction false} SyntheticKeys(rows: seq<Proposed>)
    requires Keyed(rows) && Categorised(rows)
    ensures GovernedKeys(HOLDOUT, PendingHoldouts(rows)) == KeysOf(rows, HOLDOUT)
    ensures GovernedKeys(ATTENTION, PendingAttention(rows)) == KeysOf(rows, ATTENTION)
    ensures forall k :: 0 <= k < |PendingHoldouts(rows)| ==> PendingHoldouts(rows)[k].pending
    decreases |rows|
  {
    hide JoinedKey;
    if rows != [] {
      var before, last := rows[..|rows| - 1], rows[|rows| - 1];
      assert forall k :: 0 <= k < |before| ==> before[k] == rows[k];
      SyntheticKeys(before);
      KeysSnoc(HOLDOUT, PendingHoldouts(before), Governed(last.id, true));
      KeysSnoc(ATTENTION, PendingAttention(before), Governed(last.id, true));
    }
  }

  lemma KeysSnoc(category: string, rows: seq<Governed>, g: Governed)
    ensures GovernedKeys(category, rows + [g]) == GovernedKeys(category, rows) + [JoinedKey(category, g.id)]
    ensures GovernedKeys(category, rows + []) == GovernedKeys(category, rows)
  {
    hide JoinedKey;
    assert rows + [] == rows;
  }

  lemma GovernedInitials(category: string, rows: seq<Governed>)
    requires category != ""
    ensures forall key :: key in KeySet(GovernedKeys(category, rows)) ==> key != "" && key[0] == category[0]
  {
    hide JoinedKey;
    forall key | key in GovernedKeys(category, rows) ensures key != "" && key[0] == category[0] {
      var k :| 0 <= k < |rows| && GovernedKeys(category, rows)[k] == key;
      KeyInitial(category, rows[k].id);
    }
  }

  /** A set of keys that is split by first letter is split in one way. */
  lemma SplitByInitial(a: set<string>, b: set<string>, c: set<string>, d: set<string>)
    requires a + b == c + d
    requires forall key :: key in a + c ==> key != "" && key[0] == HOLDOUT[0]
    requires forall key :: key in b + d ==> key != "" && key[0] == ATTENTION[0]
    ensures a == c && b == d
  {
    assert HOLDOUT[0] != ATTENTION[0];
    forall key ensures key in a <==> key in c {
      assert key in a + b <==> key in c + d;
      assert key in a ==> key in a + c;
      assert key in c ==> key in a + c;
      assert key in b ==> key in b + d;
      assert key in d ==> key in b + d;
    }
    forall key ensures key in b <==> key in d {
      assert key in a + b <==> key in c + d;
      assert key in a ==> key in a + c;
      assert key in c ==> key in a + c;
      assert key in b ==> key in b + d;
      assert key in d ==> key in b + d;
    }
  }

  lemma ProposedSets(rows: seq<Proposed>, m: map<string, Proposed>)
    requires MapOf(rows, m) && Categorised(rows)
    ensures m.Keys == KeySet(KeysOf(rows, HOLDOUT)) + KeySet(KeysOf(rows, ATTENTION))
  {
    KeysOfMembers(rows, HOLDOUT);
    KeysOfMembers(rows, ATTENTION);
    forall key ensures key in m <==> key in KeySet(KeysOf(rows, HOLDOUT)) + KeySet(KeysOf(rows, ATTENTION)) {
      if key in m {
        var p := m[key];
        assert p in rows && p.key == key;
        var k :| 0 <= k < |rows| && rows[k] == p;
      }
    }
  }

  /** The synthetic pair governs the same keys, each once. */
  lemma SyntheticCovers(rows: seq<Proposed>, m: map<string, Proposed>, h: Holdouts, a: Audit, h2: Holdouts, a2: Audit)
    requires ProposalMap(rows) == Some(m) && Categorised(rows) && Coverage(m, h, a)
    requires NoTwice(GovernedKeys(HOLDOUT, h.rows)) && NoTwice(GovernedKeys(ATTENTION, a.attention))
    requires h2 == Pending(PendingHoldouts(rows), h.other) && a2.attention == PendingAttention(rows)
    requires a2.summary.attentionRequired == |a2.attention|
    ensures Coverage(m, h2, a2)
    ensures multiset(GovernedKeys(HOLDOUT, h.rows)) == multiset(GovernedKeys(HOLDOUT, h2.rows))
    ensures multiset(GovernedKeys(ATTENTION, a.attention)) == multiset(GovernedKeys(ATTENTION, a2.attention))
  {
    hide JoinedKey, ProposalMap, DistinctKeys, GovernedKeys, KeysOf, Keyed, NoTwice;
    ProposalMapIsExact(rows);
    SyntheticKeys(rows);
    ProposedSets(rows, m);
    GovernedInitials(HOLDOUT, h.rows);
    GovernedInitials(ATTENTION, a.attention);
    GovernedInitials(HOLDOUT, h2.rows);
    GovernedInitials(ATTENTION, a2.attention);
    SplitByInitial(KeySet(GovernedKeys(HOLDOUT, h.rows)), KeySet(GovernedKeys(ATTENTION, a.attention)),
                   KeySet(GovernedKeys(HOLDOUT, h2.rows)), KeySet(GovernedKeys(ATTENTION, a2.attention)));
    KeysOfDistinct(rows, HOLDOUT);
    KeysOfDistinct(rows, ATTENTION);
    SameKeys(GovernedKeys(HOLDOUT, h.rows), GovernedKeys(HOLDOUT, h2.rows));
    SameKeys(GovernedKeys(ATTENTION, a.attention), GovernedKeys(ATTENTION, a2.attention));
  }

  // ---- The base entries come back ---------------------------------------------------------------------------

  lemma {:induction false} UnconfirmedCount(xs: seq<Entry>, e: Entry)
    ensures multiset(Unconfirmed(xs))[e] == if Confirmed(e) then 0 else multiset(xs)[e]
    decreases |xs|
  {
    if xs != [] {
      var before, last := xs[..|xs| - 1], xs[|xs| - 1];
      UnconfirmedCount(before, e);
      assert xs == before + [last];
      assert Unconfirmed(xs) == Unconfirmed(before) + if Confirmed(last) then [] else [last];
    }
  }

  predicate NoneConfirmed(xs: seq<Entry>) {
    forall k :: 0 <= k < |xs| ==> !Confirmed(xs[k])
  }

  predicate AllConfirmed(xs: seq<Entry>) {
    forall k :: 0 <= k < |xs| ==> Confirmed(xs[k])
  }

  /** Dropping the confirmed entries leaves the base, or less than the base if some of it was confirmed. */
  lemma BaseReturns(base: seq<Entry>, added: seq<Entry>, entries: seq<Entry>)
    requires multiset(entries) == multiset(base) + multiset(added) && AllConfirmed(added)
    ensures NoneConfirmed(base) ==> multiset(Unconfirmed(entries)) == multiset(base)
    ensures !NoneConfirmed(base) ==> |Unconfirmed(entries)| < |base|
  {
    var u, b := multiset(Unconfirmed(entries)), multiset(base);
    forall e ensures u[e] == if Confirmed(e) then 0 else b[e] {
      UnconfirmedCount(entries, e);
      assert e in added ==> Confirmed(e);
      assert e !in added ==> multiset(added)[e] == 0;
    }
    if NoneConfirmed(base) {
      forall e ensures u[e] == b[e] {
        assert e in base ==> !Confirmed(e);
        assert e !in base ==> b[e] == 0;
      }
    } else {
      var k :| 0 <= k < |base| && Confirmed(base[k]);
      assert base[k] in b && u[base[k]] == 0;
      assert b == u + (b - u) && (b - u)[base[k]] > 0;
      assert |b - u| > 0;
    }
  }

  predicate ItemsConfirmed(items: seq<Item>) {
    forall k :: 0 <= k < |items| && items[k].Converted? ==> Confirmed(items[k].entry)
  }

  lemma ResolvedIsConfirmed(attention: bool, row: Proposed, locate: Locate, anchors: map<string, Anchor>)
    ensures var r := Resolve(attention, row, locate, anchors); r.Some? && r.value.Converted? ==>
            Confirmed(r.value.entry)
  {
  }

  lemma ItemsAreConfirmed(repo: Repo, m: map<string, Proposed>, hk: seq<string>, ak: seq<string>,
      anchors: map<string, Anchor>)
    requires KeySet(hk) <= m.Keys && KeySet(ak) <= m.Keys && Items(repo, m, hk, ak, anchors).Some?
    ensures ItemsConfirmed(Items(repo, m, hk, ak, anchors).value)
  {
    hide Resolve, ResolveAll;
    KeysIn(hk, m);
    KeysIn(ak, m);
    ResolveAllMember(false, hk, m, repo.locate, anchors);
    ResolveAllMember(true, ak, m, repo.locate, anchors);
    forall k | 0 <= k < |hk| ensures var r := Resolve(false, m[hk[k]], repo.locate, anchors);
                                     r.Some? && r.value.Converted? ==> Confirmed(r.value.entry) {
      ResolvedIsConfirmed(false, m[hk[k]], repo.locate, anchors);
    }
    forall k | 0 <= k < |ak| ensures var r := Resolve(true, m[ak[k]], repo.locate, anchors);
                                     r.Some? && r.value.Converted? ==> Confirmed(r.value.entry) {
      ResolvedIsConfirmed(true, m[ak[k]], repo.locate, anchors);
    }
  }

  lemma {:induction false} EntriesConfirmed(items: seq<Item>)
    requires ItemsConfirmed(items)
    ensures AllConfirmed(ConvertedEntries(items))
    decreases |items|
  {
    if items != [] {
      var before := items[..|items| - 1];
      assert forall k :: 0 <= k < |before| ==> before[k] == items[k];
      EntriesConfirmed(before);
    }
  }

  /** With entries missing the totals cannot reconcile again. */
  lemma ShortBaseFails(repo: Repo, x: seq<Item>, y: seq<Item>, base: seq<Entry>, base2: seq<Entry>, h: Holdouts,
      h2: Holdouts,
                       a: Audit, a2: Audit)
    requires multiset(x) == multiset(y) && |base2| < |base| && SameRest(a, a2) && DistinctKeys(HeldRows(x), HoldoutKey)
    requires Assemble(repo, x, base, h, a).Some?
    ensures Assemble(repo, y, base2, h2, a2).None?
  {
    hide Sort, DistinctKeys, HeldRows, ConvertedEntries, FullDates;
    ItemsPermuted(x, y);
    SortForgetsOrder(HeldRows(x), HeldRows(y), HoldoutKey);
    MembersOfMultiset(ConvertedEntries(x), ConvertedEntries(y));
    SortSorted(base + ConvertedEntries(x), EntryKey);
    SortSorted(base2 + ConvertedEntries(y), EntryKey);
    MembersOfMultiset(Sort(base + ConvertedEntries(x), EntryKey), base + ConvertedEntries(x));
    MembersOfMultiset(Sort(base2 + ConvertedEntries(y), EntryKey), base2 + ConvertedEntries(y));
  }

  // ---- The fixpoint -----------------------------------------------------------------------------------------

  /**
   For governed rows that are each listed once, proposals of the two categories, and resolved holdouts with
   distinct sort keys: the output of a successful review passes validation exactly when no entry of the
   audit it started from was already marked as confirmed by a human.
   */
  lemma ResolutionIsAFixpoint(repo: Repo, p: seq<Proposed>, h: Holdouts, a: Audit)
    requires ApplyReview(repo, p, h, a).Some? && DistinctHeld(repo, p, h, a) && Categorised(p)
    requires NoTwice(GovernedKeys(HOLDOUT, h.rows)) && NoTwice(GovernedKeys(ATTENTION, a.attention))
    ensures var (h1, a1) := ApplyReview(repo, p, h, a).value;
            Validates(repo, p, h1, a1) <==> NoneConfirmed(a.entries)
  {
    hide Items, JoinedKey, ProposalMap, GovernedKeys, KeySet, DistinctKeys, Assemble, HeldRows, ConvertedEntries,
      NoTwice, Categorised, NoneConfirmed, Unconfirmed, PendingHoldouts, PendingAttention, Coverage;
    var (h1, a1) := ApplyReview(repo, p, h, a).value;
    var m := ProposalMap(p).value;
    CoverageSets(m, h, a);
    var hk, ak := GovernedKeys(HOLDOUT, h.rows), GovernedKeys(ATTENTION, a.attention);
    var items := Items(repo, m, hk, ak, a.anchors).value;
    AssembledRest(repo, items, a.entries, h, a);
    var h2, a2 := SyntheticHoldouts(p, h1), SyntheticAudit(p, a1);
    SyntheticCovers(p, m, h, a, h2, a2);
    CoverageSets(m, h2, a2);
    var hk2, ak2 := GovernedKeys(HOLDOUT, h2.rows), GovernedKeys(ATTENTION, a2.attention);
    ItemsForgetOrder(repo, m, hk, ak, hk2, ak2, a.anchors);
    var items2 := Items(repo, m, hk2, ak2, a.anchors).value;
    ItemsAreConfirmed(repo, m, hk, ak, a.anchors);
    EntriesConfirmed(items);
    BaseReturns(a.entries, ConvertedEntries(items), a1.entries);
    if NoneConfirmed(a.entries) {
      AssembleForgetsOrder(repo, items, items2, a.entries, a2.entries, h, h2, a, a2);
    } else {
      ShortBaseFails(repo, items, items2, a.entries, a2.entries, h, h2, a, a2);
    }
  }

  lemma CoverageSets(m: map<string, Proposed>, h: Holdouts, a: Audit)
    requires Coverage(m, h, a)
    ensures h.Pending? && KeySet(GovernedKeys(HOLDOUT, h.rows)) <= m.Keys
            && KeySet(GovernedKeys(ATTENTION, a.attention)) <= m.Keys
  {
  }

  lemma AssembledRest(repo: Repo, items: seq<Item>, base: seq<Entry>, h: Holdouts, a: Audit)
    requires Assemble(repo, items, base, h, a).Some?
    ensures var (h1, a1) := Assemble(repo, items, base, h, a).value;
            && h1.other == h.other && SameRest(a, a1)
            && multiset(a1.entries) == multiset(base) + multiset(ConvertedEntries(items))
  {
    hide Sort, DistinctKeys, ConvertedEntries, HeldRows, FullDates;
    SortSorted(base + ConvertedEntries(items), EntryKey);
  }
}
