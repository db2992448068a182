/** The resolution as it is run: loops that fill a dictionary and append rows. */
module ReviewRun {
  import opened Text
  import opened SourceOrder
  import opened ReviewResolution
  import opened ReviewFixpoint
  import opened ReviewArtifacts

  /** `_proposal_map`. */
  method MapProposals(rows: seq<Proposed>) returns (r: Option<map<string, Proposed>>)
    ensures r == ProposalMap(rows)
    ensures r.Some? <==> Keyed(rows) && DistinctKeys(rows, ProposedKey)
  {
    hide JoinedKey, Keyed, DistinctKeys;
    ProposalMapIsExact(rows);
    var mapped: map<string, Proposed> := map[];
    var k := 0;
    while k < |rows|
      invariant k <= |rows| && ProposalMap(rows[..k]) == Some(mapped)
    {
      var row := rows[k];
      OneMoreRow(rows, k);
      var key := JoinedKey(row.category, row.id);
      if row.key != key || key in mapped {
        Stuck(rows, k + 1);
        return None;
      }
      mapped := mapped[key := row];
      k := k + 1;
    }
    assert rows[..|rows|] == rows;
    return Some(mapped);
  }

  lemma OneMoreRow(rows: seq<Proposed>, k: nat)
    requires k < |rows|
    ensures rows[..k + 1] != [] && rows[..k + 1][..k] == rows[..k] && rows[..k + 1][k] == rows[k]
  {
  }

  /** A proposal list that fails stays failed however it goes on. */
  lemma {:induction false} Stuck(rows: seq<Proposed>, k: nat)
    requires k <= |rows| && ProposalMap(rows[..k]).None?
    ensures ProposalMap(rows).None?
    decreases |rows|
  {
    if k == |rows| {
      assert rows[..k] == rows;
    } else {
      assert rows[..|rows| - 1][..k] == rows[..k];
      Stuck(rows[..|rows| - 1], k);
    }
  }

  // ---- The two loops over governed rows ---------------------------------------------------------------------

  lemma {:induction false} HeldJoin(x: seq<Item>, y: seq<Item>)
    ensures HeldRows(x + y) == HeldRows(x) + HeldRows(y)
    ensures ConvertedEntries(x + y) == ConvertedEntries(x) + ConvertedEntries(y)
    decreases |y|
  {
    if y == [] {
      assert x + y == x;
    } else {
      assert (x + y)[..|x + y| - 1] == x + y[..|y| - 1];
      HeldJoin(x, y[..|y| - 1]);
    }
  }

  lemma OneMoreItem(items: seq<Item>, item: Item)
    ensures HeldRows(items + [item]) == HeldRows(items) + match item case Held(row) => [row] case Converted(_) => []
    ensures ConvertedEntries(items + [item]) ==
            ConvertedEntries(items) + match item case Held(_) => [] case Converted(e) => [e]
  {
    assert (items + [item])[..|items|] == items;
  }

  lemma {:induction false} StuckItems(attention: bool, keys: seq<string>, k: nat, m: map<string, Proposed>,
      locate: Locate,
                                      anchors: map<string, Anchor>)
    requires Mapped(keys, m) && k <= |keys| && ResolveAll(attention, keys[..k], m, locate, anchors).None?
    ensures ResolveAll(attention, keys, m, locate, anchors).None?
    decreases |keys|
  {
    hide Resolve;
    if k == |keys| {
      assert keys[..k] == keys;
    } else {
      assert keys[..|keys| - 1][..k] == keys[..k];
      StuckItems(attention, keys[..|keys| - 1], k, m, locate, anchors);
    }
  }

  function CategoryOf(attention: bool): string {
    if attention then ATTENTION else HOLDOUT
  }

  lemma KeyCount(category: string, rows: seq<Governed>)
    ensures |GovernedKeys(category, rows)| == |rows|
  {
  }

  lemma KeyOfRow(category: string, rows: seq<Governed>, k: nat, m: map<string, Proposed>)
    requires k < |rows| && Mapped(GovernedKeys(category, rows), m)
    ensures GovernedKeys(category, rows)[k] == JoinedKey(category, rows[k].id)
    ensures JoinedKey(category, rows[k].id) in m
  {
    hide JoinedKey;
    assert GovernedKeys(category, rows)[k] in m;
  }

  /** Every stretch of mapped keys is mapped, and what one more key adds. */
  lemma ResolvedNext(attention: bool, keys: seq<string>, k: nat, m: map<string, Proposed>, locate: Locate,
                     anchors: map<string, Anchor>)
    requires Mapped(keys, m) && k < |keys|
    ensures Mapped(keys[..k], m) && Mapped(keys[..k + 1], m)
    ensures ResolveAll(attention, keys[..k + 1], m, locate, anchors) ==
            match ResolveAll(attention, keys[..k], m, locate, anchors)
            case None => None
            case Some(items) =>
              match Resolve(attention, m[keys[k]], locate, anchors)
              case None => None
              case Some(item) => Some(items + [item])
  {
    hide Resolve;
    assert keys[..k + 1][..k] == keys[..k] && keys[..k + 1][k] == keys[k];
  }

  /** One of the loops: each governed row becomes a holdout or an approved conversion. */
  method ResolveRows(attention: bool, rows: seq<Governed>, m: map<string, Proposed>, locate: Locate,
                     anchors: map<string, Anchor>, heldBefore: seq<HoldoutRow>, convertedBefore: seq<Entry>)
    returns (ok: bool, held: seq<HoldoutRow>, converted: seq<Entry>)
    requires Mapped(GovernedKeys(CategoryOf(attention), rows), m)
    ensures var r := ResolveAll(attention, GovernedKeys(CategoryOf(attention), rows), m, locate, anchors);
            && ok == r.Some?
            && (ok ==> held == heldBefore + HeldRows(r.value))
            && (ok ==> converted == convertedBefore + ConvertedEntries(r.value))
  {
    hide Resolve, ResolveAll, JoinedKey, HeldRows, ConvertedEntries, GovernedKeys, Mapped;
    ghost var keys := GovernedKeys(CategoryOf(attention), rows);
    KeyCount(CategoryOf(attention), rows);
    held, converted := heldBefore, convertedBefore;
    NothingResolved();
    NoKeys(attention, keys, m, locate, anchors);
    ghost var items: seq<Item> := [];
    var k := 0;
    while k < |rows|
      invariant k <= |rows| == |keys| && Mapped(keys[..k], m)
      invariant ResolveAll(attention, keys[..k], m, locate, anchors) == Some(items)
      invariant held == heldBefore + HeldRows(items) && converted == convertedBefore + ConvertedEntries(items)
    {
      KeyOfRow(CategoryOf(attention), rows, k, m);
      var row := m[JoinedKey(CategoryOf(attention), rows[k].id)];
      ResolvedNext(attention, keys, k, m, locate, anchors);
      var item := Resolve(attention, row, locate, anchors);
      if item.None? {
        StuckItems(attention, keys, k + 1, m, locate, anchors);
        return false, held, converted;
      }
      OneMoreItem(items, item.value);
      match item.value {
        case Held(h) => held := held + [h];
        case Converted(e) => converted := converted + [e];
      }
      items := items + [item.value];
      k := k + 1;
    }
    assert keys[..|keys|] == keys;
    return true, held, converted;
  }

  lemma NoKeys(attention: bool, keys: seq<string>, m: map<string, Proposed>, locate: Locate,
               anchors: map<string, Anchor>)
    ensures Mapped(keys[..0], m) && ResolveAll(attention, keys[..0], m, locate, anchors) == Some([])
  {
  }

  lemma NothingResolved()
    ensures HeldRows([]) == [] && ConvertedEntries([]) == []
  {
  }

  /**
   `apply_review`: the resolved artifacts, or a refusal.  It is refused exactly when there are no decisions and no
   artifacts that hold them; otherwise it returns such artifacts.
   */
  method Apply(repo: Repo, proposals: seq<Proposed>, holdouts: Holdouts, audit: Audit)
    returns (r: Option<(Holdouts, Audit)>)
    ensures r == ApplyReview(repo, proposals, holdouts, audit)
    ensures r.Some? <==> exists ds, h, a :: Resolves(repo, proposals, holdouts, audit, ds, h, a)
    ensures r.Some? ==> exists ds :: Resolves(repo, proposals, holdouts, audit, ds, r.value.0, r.value.1)
  {
    hide ApplyReview, Resolves;
    ReviewIsExact(repo, proposals, holdouts, audit);
    r := ApplyLoops(repo, proposals, holdouts, audit);
  }

  method ApplyLoops(repo: Repo, proposals: seq<Proposed>, holdouts: Holdouts, audit: Audit)
    returns (r: Option<(Holdouts, Audit)>)
    ensures r == ApplyReview(repo, proposals, holdouts, audit)
  {
    hide ProposalMap, Coverage, ResolveAll, Sort, DistinctKeys, FullDates, Reasons, GovernedKeys, HeldRows,
      ConvertedEntries, Keyed;
    var mapped := MapProposals(proposals);
    if mapped.None? || !Coverage(mapped.value, holdouts, audit) {
      return None;
    }
    var m := mapped.value;
    Covers(m, holdouts, audit);
    NothingResolved();
    var ok, held, converted := ResolveRows(false, holdouts.rows, m, repo.locate, audit.anchors, [], []);
    if !ok {
      return None;
    }
    ok, held, converted := ResolveRows(true, audit.attention, m, repo.locate, audit.anchors, held, converted);
    if !ok {
      return None;
    }
    ghost var x := ResolveAll(false, GovernedKeys(HOLDOUT, holdouts.rows), m, repo.locate, audit.anchors).value;
    ghost var y := ResolveAll(true, GovernedKeys(ATTENTION, audit.attention), m, repo.locate, audit.anchors).value;
    HeldJoin(x, y);
    assert held == HeldRows(x + y) && converted == ConvertedEntries(x + y);
    held := Sort(held, HoldoutKey);
    var entries := Sort(audit.entries + converted, EntryKey);
    var dates := FullDates(held, repo.isDate);
    if |entries| + dates != audit.inventoryTotal || !DistinctKeys(entries, EntryKey) {
      return None;
    }
    return Some((Resolved(held, HoldoutSummary(|held|, Reasons(held)), holdouts.other),
                 audit.(entries := entries, attention := [], resolved := true,
                        summary := AuditSummary(|entries|, |entries|, dates, |held|, 0, |entries| + dates))));
  }

  lemma Covers(m: map<string, Proposed>, holdouts: Holdouts, audit: Audit)
    requires Coverage(m, holdouts, audit)
    ensures holdouts.Pending?
    ensures Mapped(GovernedKeys(HOLDOUT, holdouts.rows), m) && Mapped(GovernedKeys(ATTENTION, audit.attention), m)
    ensures KeySet(GovernedKeys(HOLDOUT, holdouts.rows)) <= m.Keys
    ensures KeySet(GovernedKeys(ATTENTION, audit.attention)) <= m.Keys
  {
    KeysIn(GovernedKeys(HOLDOUT, holdouts.rows), m);
    KeysIn(GovernedKeys(ATTENTION, audit.attention), m);
  }

  // ---- Un-resolving and validating ------------------------------------------------------------------------

  /** `_synthetic_pending`. */
  method SyntheticPending(proposals: seq<Proposed>, holdouts: Holdouts, audit: Audit) returns (h: Holdouts, a: Audit)
    ensures h == SyntheticHoldouts(proposals, holdouts) && a == SyntheticAudit(proposals, audit)
  {
    var pending: seq<Governed>, attention: seq<Governed> := [], [];
    var k := 0;
    while k < |proposals|
      invariant k <= |proposals|
      invariant pending == PendingHoldouts(proposals[..k]) && attention == PendingAttention(proposals[..k])
    {
      OneMoreRow(proposals, k);
      var governed := Governed(proposals[k].id, true);
      if proposals[k].category == HOLDOUT {
        pending := pending + [governed];
      } else {
        attention := attention + [governed];
      }
      k := k + 1;
    }
    assert proposals[..|proposals|] == proposals;
    var kept: seq<Entry> := [];
    k := 0;
    while k < |audit.entries|
      invariant k <= |audit.entries| && kept == Unconfirmed(audit.entries[..k])
    {
      assert audit.entries[..k + 1][..k] == audit.entries[..k];
      if !Confirmed(audit.entries[k]) {
        kept := kept + [audit.entries[k]];
      }
      k := k + 1;
    }
    assert audit.entries[..|audit.entries|] == audit.entries;
    h := Pending(pending, holdouts.other);
    a := audit.(entries := kept, attention := attention, summary := audit.summary.(attentionRequired := |attention|));
  }

  /**
   `validate_applied_review`.  Run on what a successful `apply_review` produced, it passes exactly when no
   entry of the base audit had been confirmed by a human already.
   */
  method ValidateAppliedReview(repo: Repo, proposals: seq<Proposed>, holdouts: Holdouts, audit: Audit)
    returns (passed: bool)
    ensures passed <==> Validates(repo, proposals, holdouts, audit)
    ensures forall h, a :: FirstReview(repo, proposals, h, a) ==>
              ApplyReview(repo, proposals, h, a) == Some((holdouts, audit)) ==> (passed <==> NoneConfirmed(a.entries))
  {
    hide ApplyReview, SyntheticHoldouts, SyntheticAudit, NoneConfirmed, DistinctHeld, Categorised, NoTwice,
      GovernedKeys;
    var h1, a1 := SyntheticPending(proposals, holdouts, audit);
    var expected := Apply(repo, proposals, h1, a1);
    passed := expected == Some((holdouts, audit));
    forall h, a | FirstReview(repo, proposals, h, a) && ApplyReview(repo, proposals, h, a) == Some((holdouts, audit))
      ensures passed <==> NoneConfirmed(a.entries)
    {
      ResolutionIsAFixpoint(repo, proposals, h, a);
    }
  }

  /** Distinct governed rows whose resolved holdouts are distinct, under proposals of the two known categories. */
  predicate FirstReview(repo: Repo, proposals: seq<Proposed>, h: Holdouts, a: Audit) {
    && ApplyReview(repo, proposals, h, a).Some? && DistinctHeld(repo, proposals, h, a) && Categorised(proposals)
    && NoTwice(GovernedKeys(HOLDOUT, h.rows)) && NoTwice(GovernedKeys(ATTENTION, a.attention))
  }
}
