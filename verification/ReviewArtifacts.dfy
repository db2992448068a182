/** What the resolved artifacts say, row by row and field by field, and when there are any. */
module ReviewArtifacts {
  import opened Text
  import opened SourceOrder
  import opened ReviewResolution

  /** The identities are joined to the same string: `category|source|locator|literal`. */
  predicate SameKey(p: Proposed, category: string, id: Identity) {
    p.category + "|" + p.id.source + "|" + p.id.locator + "|" + p.id.literal ==
    category + "|" + id.source + "|" + id.locator + "|" + id.literal
  }

  /** The proposal declares a holdout: where it stands for a holdout, at its durable locator for an anchor row. */
  predicate HoldsOut(attention: bool, p: Proposed, locate: Locate, row: HoldoutRow) {
    && p.disposition == (if attention then "declared_out_of_anchor_holdout" else "declared_holdout")
    && (if attention then locate(p) == Some(row.id.locator) else row.id.locator == p.id.locator)
    && row.id.source == p.id.source && row.id.literal == p.id.literal && row.reason == p.reasonCode
  }

  /** The proposal is a conversion under its matter's anchor, recorded at its durable locator. */
  predicate Converts(attention: bool, p: Proposed, locate: Locate, anchors: map<string, Anchor>, e: Entry) {
    && p.disposition == (if attention then "convertible_after_durable_locator_added" else "convertible")
    && p.matter in anchors && anchors[p.matter].anchor == p.anchor
    && locate(p) == Some(e.id.locator) && e.id.source == p.id.source && e.id.literal == p.id.literal
    && e.detail.Approved? && e.detail.anchor == p.anchor && e.detail.offset == p.offset
    && e.detail.anchorReason == anchors[p.matter].reason && e.detail.sourceLocator == p.id.locator
    && e.detail.reviewReason == p.rationale
  }

  predicate Makes(attention: bool, p: Proposed, locate: Locate, anchors: map<string, Anchor>, item: Item) {
    match item
    case Held(row) => HoldsOut(attention, p, locate, row)
    case Converted(e) => Converts(attention, p, locate, anchors, e)
  }

  lemma OneItem(attention: bool, p: Proposed, locate: Locate, anchors: map<string, Anchor>, item: Item)
    ensures Resolve(attention, p, locate, anchors) == Some(item) <==> Makes(attention, p, locate, anchors, item)
  {
    assert "declared_holdout" != "convertible";
    assert |"declared_out_of_anchor_holdout"| != |"convertible_after_durable_locator_added"|;
    match item
    case Held(row) => assert row == HoldoutRow(Identity(row.id.source, row.id.locator, row.id.literal), row.reason);
    case Converted(e) => assert e == Entry(Identity(e.id.source, e.id.locator, e.id.literal), e.detail);
  }

  /** The governed row becomes what its proposal says. */
  predicate Decides(proposals: seq<Proposed>, attention: bool, id: Identity, locate: Locate,
                    anchors: map<string, Anchor>, item: Item)
  {
    exists p :: p in proposals && SameKey(p, if attention then "anchor_attention" else "holdout", id) &&
                Makes(attention, p, locate, anchors, item)
  }

  predicate IsFor(p: Proposed, category: string, rows: seq<Governed>) {
    exists g :: g in rows && SameKey(p, category, g.id)
  }

  /** Every proposal under its own key, no key twice and none for a row that is not governed; all rows pending. */
  predicate Admissible(proposals: seq<Proposed>, holdouts: Holdouts, audit: Audit) {
    && holdouts.Pending?
    && (forall k :: 0 <= k < |proposals| ==>
          proposals[k].key == proposals[k].category + "|" + proposals[k].id.source + "|" + proposals[k].id.locator +
                              "|" + proposals[k].id.literal)
    && (forall j, k :: 0 <= j < k < |proposals| ==> proposals[j].key != proposals[k].key)
    && (forall p :: p in proposals ==>
          IsFor(p, "holdout", holdouts.rows) || IsFor(p, "anchor_attention", audit.attention))
    && (forall g :: g in holdouts.rows ==> g.pending)
    && audit.summary.attentionRequired == |audit.attention|
  }

  /** One decision for each governed row, holdouts first. */
  predicate Decided(repo: Repo, proposals: seq<Proposed>, holdouts: Holdouts, audit: Audit, ds: seq<Item>)
    requires holdouts.Pending?
  {
    var n := |holdouts.rows|;
    && |ds| == n + |audit.attention|
    && (forall k :: 0 <= k < n ==>
          Decides(proposals, false, holdouts.rows[k].id, repo.locate, audit.anchors, ds[k]))
    && (forall k :: 0 <= k < |audit.attention| ==>
          Decides(proposals, true, audit.attention[k].id, repo.locate, audit.anchors, ds[n + k]))
  }

  /** The holdouts are those decided, in order, with their summary. */
  ghost predicate HoldoutsAre(holdouts: Holdouts, ds: seq<Item>, h: Holdouts)
    requires holdouts.Pending?
  {
    && h.Resolved? && h.other == holdouts.other
    && (forall row :: multiset(h.entries)[row] == multiset(ds)[Held(row)])
    && (forall i, j :: 0 <= i < j < |h.entries| ==>
          !Before(SortKey(h.entries[j].id.source, h.entries[j].id.locator, h.entries[j].id.literal),
                  SortKey(h.entries[i].id.source, h.entries[i].id.locator, h.entries[i].id.literal)))
    && h.summary.count == |h.entries|
    && h.summary.byReason == multiset(seq(|h.entries|, k requires 0 <= k < |h.entries| => h.entries[k].reason))
  }

  /** How many of the rows are full dates. */
  function Dates(rows: seq<HoldoutRow>, isDate: string -> bool): nat {
    |set k | 0 <= k < |rows| && isDate(rows[k].id.literal)|
  }

  /** The audit has its old entries and those decided, in order and with distinct identities, with its summary. */
  ghost predicate AuditIs(repo: Repo, audit: Audit, ds: seq<Item>, rows: seq<HoldoutRow>, a: Audit) {
    && (forall e :: multiset(a.entries)[e] == multiset(audit.entries)[e] + multiset(ds)[Converted(e)])
    && (forall i, j :: 0 <= i < j < |a.entries| ==>
          Before(SortKey(a.entries[i].id.source, a.entries[i].id.locator, a.entries[i].id.literal),
                 SortKey(a.entries[j].id.source, a.entries[j].id.locator, a.entries[j].id.literal)))
    && a.attention == [] && a.resolved
    && a.anchors == audit.anchors && a.inventoryTotal == audit.inventoryTotal && a.other == audit.other
    && a.summary.convertedDates == |a.entries| && a.summary.proofRecords == |a.entries|
    && a.summary.fullDateHoldouts == Dates(rows, repo.isDate) && a.summary.holdoutCandidates == |rows|
    && a.summary.attentionRequired == 0
    && a.summary.categoryTotal == |a.entries| + Dates(rows, repo.isDate) == audit.inventoryTotal
  }

  /** The pair `h`, `a` is the resolution of the governed pair by these decisions. */
  ghost predicate Resolves(repo: Repo, proposals: seq<Proposed>, holdouts: Holdouts, audit: Audit, ds: seq<Item>,
                           h: Holdouts, a: Audit)
  {
    && Admissible(proposals, holdouts, audit) && Decided(repo, proposals, holdouts, audit, ds)
    && HoldoutsAre(holdouts, ds, h) && AuditIs(repo, audit, ds, h.entries, a)
  }

  // ---- Counts ---------------------------------------------------------------------------------------------

  lemma {:induction false} ReasonsAre(rows: seq<HoldoutRow>)
    ensures Reasons(rows) == multiset(seq(|rows|, k requires 0 <= k < |rows| => rows[k].reason))
    decreases |rows|
  {
    var reasons := seq(|rows|, k requires 0 <= k < |rows| => rows[k].reason);
    if rows != [] {
      var before, n := rows[..|rows| - 1], |rows| - 1;
      ReasonsAre(before);
      assert reasons == seq(n, k requires 0 <= k < n => before[k].reason) + [rows[n].reason];
    }
  }

  lemma {:induction false} DatesAre(rows: seq<HoldoutRow>, isDate: string -> bool)
    ensures FullDates(rows, isDate) == Dates(rows, isDate)
    decreases |rows|
  {
    if rows == [] {
      NoDates(rows, isDate);
    } else {
      DatesAre(rows[..|rows| - 1], isDate);
      OneMoreDate(rows, isDate);
    }
  }

  lemma NoDates(rows: seq<HoldoutRow>, isDate: string -> bool)
    requires rows == []
    ensures Dates(rows, isDate) == 0
  {
  }

  lemma OneMoreDate(rows: seq<HoldoutRow>, isDate: string -> bool)
    requires rows != []
    ensures Dates(rows, isDate) ==
            Dates(rows[..|rows| - 1], isDate) + if isDate(rows[|rows| - 1].id.literal) then 1 else 0
  {
    var before, n := rows[..|rows| - 1], |rows| - 1;
    var all := set k | 0 <= k < |rows| && isDate(rows[k].id.literal);
    var fewer := set k | 0 <= k < |before| && isDate(before[k].id.literal);
    forall k ensures k in all <==> k in fewer || (k == n && isDate(rows[n].id.literal)) {
      if 0 <= k < n {
        assert before[k] == rows[k];
      }
    }
    if isDate(rows[n].id.literal) {
      assert all == fewer + {n};
    } else {
      assert all == fewer;
    }
  }

  lemma {:induction false} DatesPermuted(x: seq<HoldoutRow>, y: seq<HoldoutRow>, isDate: string -> bool)
    requires multiset(x) == multiset(y)
    ensures FullDates(x, isDate) == FullDates(y, isDate)
    decreases |y|
  {
    MembersOfMultiset(x, y);
    if y != [] {
      var i := TakeLast(x, y);
      DatesWithout(x, i, isDate);
      DatesPermuted(x[..i] + x[i + 1..], y[..|y| - 1], isDate);
    }
  }

  lemma DatesSnoc(x: seq<HoldoutRow>, row: HoldoutRow, isDate: string -> bool)
    ensures FullDates(x + [row], isDate) == FullDates(x, isDate) + if isDate(row.id.literal) then 1 else 0
  {
    assert (x + [row])[..|x|] == x;
  }

  lemma {:induction false} DatesWithout(x: seq<HoldoutRow>, i: nat, isDate: string -> bool)
    requires i < |x|
    ensures FullDates(x, isDate) ==
            FullDates(x[..i] + x[i + 1..], isDate) + if isDate(x[i].id.literal) then 1 else 0
    decreases |x|
  {
    hide FullDates;
    var before, last := x[..|x| - 1], x[|x| - 1];
    DatesSnoc(before, last, isDate);
    assert x == before + [last];
    if i == |before| {
      assert x[..i] + x[i + 1..] == before;
    } else {
      DatesWithout(before, i, isDate);
      DatesSnoc(before[..i] + before[i + 1..], last, isDate);
      assert x[..i] + x[i + 1..] == before[..i] + before[i + 1..] + [last];
    }
  }

  // ---- From keys to identities -------------------------------------------------------------------------------

  lemma MapFacts(proposals: seq<Proposed>)
    ensures ProposalMap(proposals).Some? <==>
            && (forall k :: 0 <= k < |proposals| ==>
                  proposals[k].key == JoinedKey(proposals[k].category, proposals[k].id))
            && (forall j, k :: 0 <= j < k < |proposals| ==> proposals[j].key != proposals[k].key)
    ensures ProposalMap(proposals).Some? ==> MapOf(proposals, ProposalMap(proposals).value)
  {
    hide JoinedKey, MapOf, ProposalMap;
    ProposalMapIsExact(proposals);
    DistinctByPosition(proposals, ProposedKey);
    assert forall j, k :: 0 <= j < |proposals| && 0 <= k < |proposals| ==>
             (ProposedKey(proposals[j]) == ProposedKey(proposals[k]) <==> proposals[j].key == proposals[k].key);
  }

  /** The decision about a governed row is what resolving the proposal under its key gives. */
  lemma DecidesByKey(proposals: seq<Proposed>, m: map<string, Proposed>, attention: bool, id: Identity,
                     locate: Locate, anchors: map<string, Anchor>, item: Item)
    requires ProposalMap(proposals) == Some(m)
    ensures var key := JoinedKey(if attention then ATTENTION else HOLDOUT, id);
            Decides(proposals, attention, id, locate, anchors, item) <==>
            key in m && Resolve(attention, m[key], locate, anchors) == Some(item)
  {
    hide ProposalMap, Resolve, Makes;
    MapFacts(proposals);
    var key := JoinedKey(if attention then ATTENTION else HOLDOUT, id);
    if key in m {
      OneItem(attention, m[key], locate, anchors, item);
      assert m[key] in proposals;
    }
    if Decides(proposals, attention, id, locate, anchors, item) {
      var p :| p in proposals && SameKey(p, if attention then "anchor_attention" else "holdout", id) &&
               Makes(attention, p, locate, anchors, item);
      assert m[p.key] == p;
    }
  }

  lemma InKeySet(category: string, rows: seq<Governed>, key: string)
    ensures key in KeySet(GovernedKeys(category, rows)) <==> exists g :: g in rows && key == JoinedKey(category, g.id)
  {
    hide JoinedKey;
    var keys := GovernedKeys(category, rows);
    if g :| g in rows && key == JoinedKey(category, g.id) {
      var k :| 0 <= k < |rows| && rows[k] == g;
      assert keys[k] == key;
    }
    if key in keys {
      var k :| 0 <= k < |keys| && keys[k] == key;
      assert rows[k] in rows && key == JoinedKey(category, rows[k].id);
    }
  }

  /** Every governed row has a proposal under its key. */
  predicate Covered(m: map<string, Proposed>, category: string, rows: seq<Governed>) {
    forall g :: g in rows ==> JoinedKey(category, g.id) in m
  }

  lemma CoverageIs(proposals: seq<Proposed>, m: map<string, Proposed>, holdouts: Holdouts, audit: Audit)
    requires ProposalMap(proposals) == Some(m)
    ensures Coverage(m, holdouts, audit) <==>
            Admissible(proposals, holdouts, audit) && Covered(m, HOLDOUT, holdouts.rows) &&
            Covered(m, ATTENTION, audit.attention)
  {
    hide ProposalMap, KeySet, GovernedKeys, IsFor, Covered, MapOf, SameKey;
    MapFacts(proposals);
    if holdouts.Pending? {
      var hk, ak := KeySet(GovernedKeys(HOLDOUT, holdouts.rows)), KeySet(GovernedKeys(ATTENTION, audit.attention));
      forall p | p in proposals
        ensures p.key in hk <==> IsFor(p, "holdout", holdouts.rows)
        ensures p.key in ak <==> IsFor(p, "anchor_attention", audit.attention)
      {
        KeyIsFor(p, HOLDOUT, holdouts.rows);
        KeyIsFor(p, ATTENTION, audit.attention);
      }
      CoveredKeys(m, HOLDOUT, holdouts.rows);
      CoveredKeys(m, ATTENTION, audit.attention);
      SameKeys(proposals, m, hk, ak);
    }
  }

  lemma CoveredKeys(m: map<string, Proposed>, category: string, rows: seq<Governed>)
    ensures KeySet(GovernedKeys(category, rows)) <= m.Keys <==> Covered(m, category, rows)
  {
    hide JoinedKey, GovernedKeys, KeySet;
    var keys := KeySet(GovernedKeys(category, rows));
    if keys <= m.Keys {
      forall g | g in rows ensures JoinedKey(category, g.id) in m {
        InKeySet(category, rows, JoinedKey(category, g.id));
      }
    }
    if Covered(m, category, rows) {
      forall key | key in keys ensures key in m {
        InKeySet(category, rows, key);
      }
    }
  }

  lemma KeyIsFor(p: Proposed, category: string, rows: seq<Governed>)
    requires p.key == JoinedKey(p.category, p.id) && category in {HOLDOUT, ATTENTION}
    ensures p.key in KeySet(GovernedKeys(category, rows)) <==>
            IsFor(p, if category == HOLDOUT then "holdout" else "anchor_attention", rows)
  {
    hide JoinedKey, GovernedKeys, KeySet, SameKey;
    InKeySet(category, rows, p.key);
    forall g: Governed
      ensures SameKey(p, if category == HOLDOUT then "holdout" else "anchor_attention", g.id) <==>
              p.key == JoinedKey(category, g.id)
    {
      SameKeyIsKey(p, g.id);
    }
  }

  /** The keys are those of two kinds of rows. */
  lemma SameKeys(proposals: seq<Proposed>, m: map<string, Proposed>, hk: set<string>, ak: set<string>)
    requires MapOf(proposals, m)
    ensures m.Keys == hk + ak <==>
            (forall p :: p in proposals ==> p.key in hk || p.key in ak) && hk <= m.Keys && ak <= m.Keys
  {
    if (forall p :: p in proposals ==> p.key in hk || p.key in ak) {
      forall key | key in m ensures key in hk + ak {
        assert m[key] in proposals;
      }
    }
  }

  lemma SameKeyIsKey(p: Proposed, id: Identity)
    requires p.key == JoinedKey(p.category, p.id)
    ensures SameKey(p, "holdout", id) <==> p.key == JoinedKey(HOLDOUT, id)
    ensures SameKey(p, "anchor_attention", id) <==> p.key == JoinedKey(ATTENTION, id)
  {
  }

  // ---- The decisions and the artifacts ---------------------------------------------------------------------

  /** All keys of one kind, resolved: item by item what the decisions say. */
  lemma AllDecided(proposals: seq<Proposed>, m: map<string, Proposed>, attention: bool, rows: seq<Governed>,
                   locate: Locate, anchors: map<string, Anchor>, ds: seq<Item>)
    requires ProposalMap(proposals) == Some(m)
    requires var keys := GovernedKeys(if attention then ATTENTION else HOLDOUT, rows);
             Mapped(keys, m)
    ensures ResolveAll(attention, GovernedKeys(if attention then ATTENTION else HOLDOUT, rows), m, locate, anchors) ==
            Some(ds) <==>
            |ds| == |rows| &&
            forall k :: 0 <= k < |rows| ==> Decides(proposals, attention, rows[k].id, locate, anchors, ds[k])
  {
    hide ProposalMap, Resolve, JoinedKey, Decides, ResolveAll;
    var category := if attention then ATTENTION else HOLDOUT;
    var keys := GovernedKeys(category, rows);
    ResolveAllMember(attention, keys, m, locate, anchors);
    assert |keys| == |rows|;
    var r := ResolveAll(attention, keys, m, locate, anchors);
    if r == Some(ds) {
      forall k | 0 <= k < |rows| ensures Decides(proposals, attention, rows[k].id, locate, anchors, ds[k]) {
        assert Resolve(attention, m[keys[k]], locate, anchors) == Some(ds[k]);
        DecidesByKey(proposals, m, attention, rows[k].id, locate, anchors, ds[k]);
      }
    }
    if |ds| == |rows| &&
       forall k :: 0 <= k < |rows| ==> Decides(proposals, attention, rows[k].id, locate, anchors, ds[k])
    {
      forall k | 0 <= k < |keys| ensures Resolve(attention, m[keys[k]], locate, anchors) == Some(ds[k]) {
        DecidesByKey(proposals, m, attention, rows[k].id, locate, anchors, ds[k]);
      }
      forall key | key in keys ensures Resolve(attention, m[key], locate, anchors).Some? {
        var k :| 0 <= k < |keys| && keys[k] == key;
      }
      assert forall k :: 0 <= k < |rows| ==> Some(r.value[k]) == Resolve(attention, m[keys[k]], locate, anchors);
      assert r.value == ds;
    }
  }

  lemma MappedIsCovered(m: map<string, Proposed>, category: string, rows: seq<Governed>)
    ensures Mapped(GovernedKeys(category, rows), m) <==> Covered(m, category, rows)
  {
    hide JoinedKey;
    var keys := GovernedKeys(category, rows);
    if Covered(m, category, rows) {
      forall k | 0 <= k < |keys| ensures keys[k] in m {
        assert rows[k] in rows;
      }
    }
    if Mapped(keys, m) {
      forall g | g in rows ensures JoinedKey(category, g.id) in m {
        var k :| 0 <= k < |rows| && rows[k] == g;
        assert keys[k] in m;
      }
    }
  }

  /** The items of a review are the decisions about its rows. */
  lemma ItemsAreDecisions(repo: Repo, proposals: seq<Proposed>, m: map<string, Proposed>, holdouts: Holdouts,
                          audit: Audit, ds: seq<Item>)
    requires ProposalMap(proposals) == Some(m) && Coverage(m, holdouts, audit)
    ensures KeySet(GovernedKeys(HOLDOUT, holdouts.rows)) <= m.Keys
    ensures KeySet(GovernedKeys(ATTENTION, audit.attention)) <= m.Keys
    ensures var items := Items(repo, m, GovernedKeys(HOLDOUT, holdouts.rows), GovernedKeys(ATTENTION, audit.attention),
                               audit.anchors);
            items == Some(ds) <==> Decided(repo, proposals, holdouts, audit, ds)
  {
    hide ProposalMap, ResolveAll, GovernedKeys, Decides, Covered, Admissible, Mapped, Resolve, Items;
    CoverageIs(proposals, m, holdouts, audit);
    MappedIsCovered(m, HOLDOUT, holdouts.rows);
    MappedIsCovered(m, ATTENTION, audit.attention);
    var n := |holdouts.rows|;
    var hk, ak := GovernedKeys(HOLDOUT, holdouts.rows), GovernedKeys(ATTENTION, audit.attention);
    KeyTotal(HOLDOUT, holdouts.rows);
    ItemsInTwo(repo, m, hk, ak, audit.anchors, ds);
    if |ds| >= n {
      AllDecided(proposals, m, false, holdouts.rows, repo.locate, audit.anchors, ds[..n]);
      AllDecided(proposals, m, true, audit.attention, repo.locate, audit.anchors, ds[n..]);
    }
  }

  lemma KeyTotal(category: string, rows: seq<Governed>)
    ensures |GovernedKeys(category, rows)| == |rows|
  {
  }

  /** The items of both kinds, one after the other. */
  lemma ItemsInTwo(repo: Repo, m: map<string, Proposed>, hk: seq<string>, ak: seq<string>, anchors: map<string, Anchor>,
                   ds: seq<Item>)
    requires KeySet(hk) <= m.Keys && KeySet(ak) <= m.Keys && Mapped(hk, m) && Mapped(ak, m)
    ensures Items(repo, m, hk, ak, anchors) == Some(ds) <==>
            |ds| >= |hk| && ResolveAll(false, hk, m, repo.locate, anchors) == Some(ds[..|hk|]) &&
            ResolveAll(true, ak, m, repo.locate, anchors) == Some(ds[|hk|..])
  {
    hide Resolve, ResolveAll;
    ResolveAllMember(false, hk, m, repo.locate, anchors);
    if |ds| >= |hk| {
      assert ds == ds[..|hk|] + ds[|hk|..];
    }
  }

  lemma AssembledAre(repo: Repo, holdouts: Holdouts, audit: Audit, ds: seq<Item>)
    requires holdouts.Pending? && Assemble(repo, ds, audit.entries, holdouts, audit).Some?
    ensures var r := Assemble(repo, ds, audit.entries, holdouts, audit).value;
            HoldoutsAre(holdouts, ds, r.0) && AuditIs(repo, audit, ds, r.0.entries, r.1)
  {
    hide Sort, HeldRows, ConvertedEntries, FullDates, Reasons, Dates, Before, Sorted, DistinctKeys;
    var rows := Sort(HeldRows(ds), HoldoutKey);
    var all := audit.entries + ConvertedEntries(ds);
    var entries := Sort(all, EntryKey);
    SortSorted(HeldRows(ds), HoldoutKey);
    SortSorted(all, EntryKey);
    SortedByPosition(rows, HoldoutKey);
    SortedByPosition(entries, EntryKey);
    DistinctByPosition(entries, EntryKey);
    ReasonsAre(rows);
    DatesAre(rows, repo.isDate);
    forall row ensures multiset(rows)[row] == multiset(ds)[Held(row)] {
      HeldCount(ds, row);
    }
    forall e ensures multiset(entries)[e] == multiset(audit.entries)[e] + multiset(ds)[Converted(e)] {
      ConvertedCount(ds, e);
    }
    forall i, j | 0 <= i < j < |entries| ensures Before(EntryKey(entries[i]), EntryKey(entries[j])) {
      BeforeIsAnOrder(EntryKey(entries[i]), EntryKey(entries[j]), EntryKey(entries[j]));
      assert EntryKey(entries[i]) != EntryKey(entries[j]);
    }
  }

  lemma Assembles(repo: Repo, holdouts: Holdouts, audit: Audit, ds: seq<Item>, h: Holdouts, a: Audit)
    requires holdouts.Pending? && HoldoutsAre(holdouts, ds, h) && AuditIs(repo, audit, ds, h.entries, a)
    ensures Assemble(repo, ds, audit.entries, holdouts, audit).Some?
  {
    hide Sort, HeldRows, ConvertedEntries, FullDates, Reasons, Dates, Before, Sorted, DistinctKeys;
    var rows := Sort(HeldRows(ds), HoldoutKey);
    var all := audit.entries + ConvertedEntries(ds);
    var entries := Sort(all, EntryKey);
    SortSorted(HeldRows(ds), HoldoutKey);
    SortSorted(all, EntryKey);
    forall row ensures multiset(rows)[row] == multiset(h.entries)[row] {
      HeldCount(ds, row);
    }
    forall e ensures multiset(entries)[e] == multiset(a.entries)[e] {
      ConvertedCount(ds, e);
    }
    assert multiset(rows) == multiset(h.entries) && multiset(entries) == multiset(a.entries);
    MembersOfMultiset(entries, a.entries);
    DatesPermuted(rows, h.entries, repo.isDate);
    DatesAre(h.entries, repo.isDate);
    forall i, j | 0 <= i < j < |a.entries| ensures EntryKey(a.entries[i]) != EntryKey(a.entries[j]) {
      BeforeIsAnOrder(EntryKey(a.entries[i]), EntryKey(a.entries[j]), EntryKey(a.entries[j]));
    }
    DistinctByPosition(a.entries, EntryKey);
    DistinctKept(a.entries, entries, EntryKey);
  }

  /** A review succeeds exactly when there is such a pair, and then its answer is one. */
  lemma ReviewIsExact(repo: Repo, proposals: seq<Proposed>, holdouts: Holdouts, audit: Audit)
    ensures var r := ApplyReview(repo, proposals, holdouts, audit);
            && (r.Some? <==> exists ds, h, a :: Resolves(repo, proposals, holdouts, audit, ds, h, a))
            && (r.Some? ==> exists ds :: Resolves(repo, proposals, holdouts, audit, ds, r.value.0, r.value.1))
  {
    hide ProposalMap, Coverage, Items, Assemble, Admissible, Decided, HoldoutsAre, AuditIs, GovernedKeys;
    var r := ApplyReview(repo, proposals, holdouts, audit);
    if r.Some? {
      var m := ProposalMap(proposals).value;
      Pended(m, holdouts, audit);
      var ds := Items(repo, m, GovernedKeys(HOLDOUT, holdouts.rows), GovernedKeys(ATTENTION, audit.attention),
                      audit.anchors).value;
      CoverageIs(proposals, m, holdouts, audit);
      ItemsAreDecisions(repo, proposals, m, holdouts, audit, ds);
      AssembledAre(repo, holdouts, audit, ds);
      assert Resolves(repo, proposals, holdouts, audit, ds, r.value.0, r.value.1);
    }
    if ds, h, a :| Resolves(repo, proposals, holdouts, audit, ds, h, a) {
      Admitted(proposals, holdouts, audit);
      var m := ProposalMap(proposals).value;
      DecidedIsCovered(repo, proposals, m, holdouts, audit, ds);
      CoverageIs(proposals, m, holdouts, audit);
      ItemsAreDecisions(repo, proposals, m, holdouts, audit, ds);
      Assembles(repo, holdouts, audit, ds, h, a);
    }
  }

  lemma Pended(m: map<string, Proposed>, holdouts: Holdouts, audit: Audit)
    requires Coverage(m, holdouts, audit)
    ensures holdouts.Pending?
    ensures KeySet(GovernedKeys(HOLDOUT, holdouts.rows)) <= m.Keys
    ensures KeySet(GovernedKeys(ATTENTION, audit.attention)) <= m.Keys
  {
  }

  lemma Admitted(proposals: seq<Proposed>, holdouts: Holdouts, audit: Audit)
    requires Admissible(proposals, holdouts, audit)
    ensures holdouts.Pending? && ProposalMap(proposals).Some?
  {
    hide ProposalMap;
    MapFacts(proposals);
  }

  lemma DecidedIsCovered(repo: Repo, proposals: seq<Proposed>, m: map<string, Proposed>, holdouts: Holdouts,
                         audit: Audit, ds: seq<Item>)
    requires ProposalMap(proposals) == Some(m) && holdouts.Pending? && Decided(repo, proposals, holdouts, audit, ds)
    ensures Covered(m, HOLDOUT, holdouts.rows) && Covered(m, ATTENTION, audit.attention)
  {
    hide ProposalMap, Decides, JoinedKey;
    forall g | g in holdouts.rows ensures JoinedKey(HOLDOUT, g.id) in m {
      var k :| 0 <= k < |holdouts.rows| && holdouts.rows[k] == g;
      DecidesByKey(proposals, m, false, g.id, repo.locate, audit.anchors, ds[k]);
    }
    forall g | g in audit.attention ensures JoinedKey(ATTENTION, g.id) in m {
      var k :| 0 <= k < |audit.attention| && audit.attention[k] == g;
      DecidesByKey(proposals, m, true, g.id, repo.locate, audit.anchors, ds[|holdouts.rows| + k]);
    }
  }
}
