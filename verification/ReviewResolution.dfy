/** Resolving the governed Day Zero artifacts from an approved proposal. */
module ReviewResolution {
  // A resolved pair is validated by un-resolving it and resolving it again.

  import opened Text
  import opened SourceOrder

  const HOLDOUT := "holdout"
  const ATTENTION := "anchor_attention"

  /** What identifies a governed or proposed row. */
  datatype Identity = Identity(source: string, locator: string, literal: string)

  datatype Proposed =
    Proposed(key: string, category: string, id: Identity, disposition: string, reasonCode: string, rationale: string,
             matter: string, anchor: string, offset: int)

  datatype Governed = Governed(id: Identity, pending: bool)

  datatype Anchor = Anchor(anchor: string, reason: string)

  /** A declared absolute holdout. */
  datatype HoldoutRow = HoldoutRow(id: Identity, reason: string)

  /** An audit entry; a base entry's other fields are opaque. */
  datatype Detail =
    | Base(confirmed: bool, content: nat)
    | Approved(anchor: string, offset: int, anchorReason: string, sourceLocator: string, reviewReason: string)

  datatype Entry = Entry(id: Identity, detail: Detail)

  /** Governed or resolved; `other` is what resolution never touches. */
  datatype Holdouts = Pending(rows: seq<Governed>, other: nat)
      | Resolved(entries: seq<HoldoutRow>, summary: HoldoutSummary, other: nat)

  datatype HoldoutSummary = HoldoutSummary(count: nat, byReason: multiset<string>)

  datatype AuditSummary =
    AuditSummary(convertedDates: nat, proofRecords: nat, fullDateHoldouts: nat, holdoutCandidates: nat,
                 attentionRequired: nat, categoryTotal: nat)

  datatype Audit =
    Audit(entries: seq<Entry>, attention: seq<Governed>, anchors: map<string, Anchor>, inventoryTotal: nat,
          summary: AuditSummary, resolved: bool, other: nat)

  predicate Confirmed(e: Entry) {
    match e.detail case Base(confirmed, _) => confirmed case Approved(_, _, _, _, _) => true
  }

  function HoldoutKey(r: HoldoutRow): SortKey {
    SortKey(r.id.source, r.id.locator, r.id.literal)
  }

  function EntryKey(e: Entry): SortKey {
    SortKey(e.id.source, e.id.locator, e.id.literal)
  }

  // ---- Keys ------------------------------------------------------------------------------------------

  /** `category|source|locator|literal`. */
  function JoinedKey(category: string, id: Identity): string {
    category + "|" + id.source + "|" + id.locator + "|" + id.literal
  }

  function GovernedKeys(category: string, rows: seq<Governed>): seq<string> {
    seq(|rows|, k requires 0 <= k < |rows| => JoinedKey(category, rows[k].id))
  }

  /** `_proposal_map`: every row under its own key, no key twice. */
  function ProposalMap(rows: seq<Proposed>): Option<map<string, Proposed>> {
    if rows == [] then Some(map[])
    else
      var last := rows[|rows| - 1];
      match ProposalMap(rows[..|rows| - 1])
      case None => None
      case Some(m) =>
        var key := JoinedKey(last.category, last.id);
        if last.key != key || key in m then None else Some(m[key := last])
  }

  // ---- Resolving one row --------------------------------------------------------------------------------

  datatype Item = Held(row: HoldoutRow) | Converted(entry: Entry)

  /** The durable locator of a row in the repository; `None` where it cannot be found. */
  type Locate = Proposed -> Option<string>

  function Conversion(row: Proposed, locate: Locate, anchors: map<string, Anchor>): Option<Item> {
    if row.matter !in anchors || anchors[row.matter].anchor != row.anchor then None
    else
      match locate(row)
      case None => None
      case Some(locator) =>
        Some(Converted(Entry(row.id.(locator := locator),
          Approved(row.anchor, row.offset, anchors[row.matter].reason, row.id.locator, row.rationale))))
  }

  /** What a governed row of either kind becomes. */
  function Resolve(attention: bool, row: Proposed, locate: Locate, anchors: map<string, Anchor>): Option<Item> {
    if !attention then
      if row.disposition == "declared_holdout" then Some(Held(HoldoutRow(row.id, row.reasonCode)))
      else if row.disposition == "convertible" then Conversion(row, locate, anchors)
      else None
    else
      if row.disposition == "declared_out_of_anchor_holdout" then
        match locate(row)
        case None => None
        case Some(locator) => Some(Held(HoldoutRow(row.id.(locator := locator), row.reasonCode)))
      else if row.disposition == "convertible_after_durable_locator_added" then Conversion(row, locate, anchors)
      else None
  }

  predicate Mapped(keys: seq<string>, m: map<string, Proposed>) {
    forall k :: 0 <= k < |keys| ==> keys[k] in m
  }

  function ResolveAll(attention: bool, keys: seq<string>, m: map<string, Proposed>, locate: Locate,
                      anchors: map<string, Anchor>): Option<seq<Item>>
    requires Mapped(keys, m)
  {
    if keys == [] then Some([])
    else
      match ResolveAll(attention, keys[..|keys| - 1], m, locate, anchors)
      case None => None
      case Some(items) =>
        match Resolve(attention, m[keys[|keys| - 1]], locate, anchors)
        case None => None
        case Some(item) => Some(items + [item])
  }

  function HeldRows(items: seq<Item>): seq<HoldoutRow> {
    if items == [] then []
    else HeldRows(items[..|items| - 1]) + match items[|items| - 1] case Held(row) => [row] case Converted(_) => []
  }

  function ConvertedEntries(items: seq<Item>): seq<Entry> {
    if items == [] then []
    else ConvertedEntries(items[..|items| - 1]) + match items[|items| - 1] case Held(_) => [] case Converted(e) => [e]
  }

  function Reasons(rows: seq<HoldoutRow>): multiset<string> {
    if rows == [] then multiset{} else Reasons(rows[..|rows| - 1]) + multiset{rows[|rows| - 1].reason}
  }

  function FullDates(rows: seq<HoldoutRow>, isDate: string -> bool): nat {
    if rows == [] then 0
    else FullDates(rows[..|rows| - 1], isDate) + if isDate(rows[|rows| - 1].id.literal) then 1 else 0
  }

  /** What the repository answers: durable locators, and which literals are full dates. */
  datatype Repo = Repo(locate: Locate, isDate: string -> bool)

  // ---- `apply_review` ---------------------------------------------------------------------------------------

  function KeySet(keys: seq<string>): set<string> {
    set k | k in keys
  }

  /** The proposals cover exactly the governed rows, which are pending and correctly counted. */
  predicate Coverage(m: map<string, Proposed>, holdouts: Holdouts, audit: Audit) {
    && holdouts.Pending?
    && m.Keys == KeySet(GovernedKeys(HOLDOUT, holdouts.rows)) + KeySet(GovernedKeys(ATTENTION, audit.attention))
    && (forall k :: 0 <= k < |holdouts.rows| ==> holdouts.rows[k].pending)
    && audit.summary.attentionRequired == |audit.attention|
  }

  function Items(repo: Repo, m: map<string, Proposed>, hk: seq<string>, ak: seq<string>, anchors: map<string, Anchor>):
    Option<seq<Item>>
    requires KeySet(hk) <= m.Keys && KeySet(ak) <= m.Keys
  {
    KeysIn(hk, m);
    KeysIn(ak, m);
    match ResolveAll(false, hk, m, repo.locate, anchors)
    case None => None
    case Some(x) =>
      match ResolveAll(true, ak, m, repo.locate, anchors)
      case None => None
      case Some(y) => Some(x + y)
  }

  lemma KeysIn(keys: seq<string>, m: map<string, Proposed>)
    requires KeySet(keys) <= m.Keys
    ensures forall k :: 0 <= k < |keys| ==> keys[k] in m
  {
    forall k | 0 <= k < |keys| ensures keys[k] in m {
      assert keys[k] in KeySet(keys);
    }
  }

  /** The resolved pair from the resolved rows, when the totals reconcile and identities are unique. */
  function Assemble(repo: Repo, items: seq<Item>, base: seq<Entry>, holdouts: Holdouts, audit: Audit):
    Option<(Holdouts, Audit)>
  {
    var rows := Sort(HeldRows(items), HoldoutKey);
    var entries := Sort(base + ConvertedEntries(items), EntryKey);
    var dates := FullDates(rows, repo.isDate);
    if |entries| + dates != audit.inventoryTotal || !DistinctKeys(entries, EntryKey) then None
    else
      Some((Resolved(rows, HoldoutSummary(|rows|, Reasons(rows)), holdouts.other),
            audit.(entries := entries, attention := [], resolved := true,
                   summary := AuditSummary(|entries|, |entries|, dates, |rows|, 0, |entries| + dates))))
  }

  function ApplyReview(repo: Repo, proposals: seq<Proposed>, holdouts: Holdouts, audit: Audit):
    Option<(Holdouts, Audit)>
  {
    match ProposalMap(proposals)
    case None => None
    case Some(m) =>
      if !Coverage(m, holdouts, audit) then None
      else
        match Items(repo, m, GovernedKeys(HOLDOUT, holdouts.rows), GovernedKeys(ATTENTION, audit.attention),
            audit.anchors)
        case None => None
        case Some(items) => Assemble(repo, items, audit.entries, holdouts, audit)
  }

  // ---- `_synthetic_pending` and validation ------------------------------------------------------------------

  function PendingHoldouts(proposals: seq<Proposed>): seq<Governed> {
    if proposals == [] then []
    else
      var last := proposals[|proposals| - 1];
      PendingHoldouts(proposals[..|proposals| - 1]) + if last.category == HOLDOUT then [Governed(last.id, true)] else []
  }

  function PendingAttention(proposals: seq<Proposed>): seq<Governed> {
    if proposals == [] then []
    else
      var last := proposals[|proposals| - 1];
      PendingAttention(proposals[..|proposals| - 1]) + if last.category == HOLDOUT then []
          else [Governed(last.id, true)]
  }

  function Unconfirmed(entries: seq<Entry>): seq<Entry> {
    if entries == [] then []
    else
      Unconfirmed(entries[..|entries| - 1]) + if Confirmed(entries[|entries| - 1]) then [] else [entries[|entries| - 1]]
  }

  function SyntheticHoldouts(proposals: seq<Proposed>, holdouts: Holdouts): Holdouts {
    Pending(PendingHoldouts(proposals), holdouts.other)
  }

  function SyntheticAudit(proposals: seq<Proposed>, audit: Audit): Audit {
    var attention := PendingAttention(proposals);
    audit.(entries := Unconfirmed(audit.entries), attention := attention,
           summary := audit.summary.(attentionRequired := |attention|))
  }

  /** `validate_applied_review` passes. */
  predicate Validates(repo: Repo, proposals: seq<Proposed>, holdouts: Holdouts, audit: Audit) {
    ApplyReview(repo, proposals, SyntheticHoldouts(proposals, holdouts), SyntheticAudit(proposals, audit)) ==
    Some((holdouts, audit))
  }

  // ---- What depends on order and what does not -------------------------------------------------------------

  lemma {:induction false} ResolveAllMember(attention: bool, keys: seq<string>, m: map<string, Proposed>,
      locate: Locate,
                                            anchors: map<string, Anchor>)
    requires Mapped(keys, m)
    ensures ResolveAll(attention, keys, m, locate, anchors).Some? <==>
            forall k :: k in keys ==> Resolve(attention, m[k], locate, anchors).Some?
    ensures ResolveAll(attention, keys, m, locate, anchors).Some? ==>
              |ResolveAll(attention, keys, m, locate, anchors).value| == |keys| &&
              forall k :: 0 <= k < |keys| ==>
                Resolve(attention, m[keys[k]], locate, anchors) ==
                    Some(ResolveAll(attention, keys, m, locate, anchors).value[k])
    decreases |keys|
  {
    hide Resolve;
    if keys != [] {
      var before := keys[..|keys| - 1];
      ResolveAllMember(attention, before, m, locate, anchors);
      assert keys == before + [keys[|keys| - 1]];
    }
  }

  lemma RemoveAt<T>(xs: seq<T>, i: nat)
    requires i < |xs|
    ensures multiset(xs) == multiset(xs[..i] + xs[i + 1..]) + multiset{xs[i]}
  {
    assert xs == xs[..i] + [xs[i]] + xs[i + 1..];
  }

  /** Taking the last of one arrangement out of the other. */
  lemma TakeLast<T>(x: seq<T>, y: seq<T>) returns (i: nat)
    requires multiset(x) == multiset(y) && y != []
    ensures i < |x| && x[i] == y[|y| - 1] && multiset(x[..i] + x[i + 1..]) == multiset(y[..|y| - 1])
  {
    MembersOfMultiset(x, y);
    var last := y[|y| - 1];
    assert last in x;
    i :| 0 <= i < |x| && x[i] == last;
    RemoveAt(x, i);
    assert y == y[..|y| - 1] + [last];
    assert multiset(y[..|y| - 1]) == multiset(y) - multiset{last};
    assert multiset(x[..i] + x[i + 1..]) == multiset(x) - multiset{last};
  }

  lemma AllResolved(attention: bool, x: seq<string>, y: seq<string>, m: map<string, Proposed>, locate: Locate,
                    anchors: map<string, Anchor>)
    requires multiset(x) == multiset(y)
    requires Mapped(x, m) && Mapped(y, m)
    requires ResolveAll(attention, x, m, locate, anchors).Some?
    ensures ResolveAll(attention, y, m, locate, anchors).Some?
    ensures y == [] ==> ResolveAll(attention, x, m, locate, anchors) == ResolveAll(attention, y, m, locate, anchors)
  {
    hide Resolve, ResolveAll;
    MembersOfMultiset(x, y);
    ResolveAllMember(attention, x, m, locate, anchors);
    ResolveAllMember(attention, y, m, locate, anchors);
  }

  /** One key less, one item less. */
  lemma ResolvedWithout(attention: bool, x: seq<string>, i: nat, m: map<string, Proposed>, locate: Locate,
                        anchors: map<string, Anchor>)
    requires i < |x| && Mapped(x, m)
    requires ResolveAll(attention, x, m, locate, anchors).Some?
    ensures Mapped(x[..i] + x[i + 1..], m)
    ensures ResolveAll(attention, x[..i] + x[i + 1..], m, locate, anchors).Some?
    ensures Resolve(attention, m[x[i]], locate, anchors).Some?
    ensures multiset(ResolveAll(attention, x, m, locate, anchors).value) ==
            multiset(ResolveAll(attention, x[..i] + x[i + 1..], m, locate, anchors).value) +
            multiset{Resolve(attention, m[x[i]], locate, anchors).value}
  {
    hide Resolve, ResolveAll;
    var rest := x[..i] + x[i + 1..];
    assert forall k :: 0 <= k < |rest| ==> rest[k] == if k < i then x[k] else x[k + 1];
    ResolveAllMember(attention, x, m, locate, anchors);
    ResolveAllMember(attention, rest, m, locate, anchors);
    var u := ResolveAll(attention, x, m, locate, anchors).value;
    RemoveAt(u, i);
    assert u[..i] + u[i + 1..] == ResolveAll(attention, rest, m, locate, anchors).value;
  }

  /** The same keys in another order give the same items in another order. */
  lemma {:induction false} ResolvePermuted(attention: bool, x: seq<string>, y: seq<string>, m: map<string, Proposed>,
                                           locate: Locate, anchors: map<string, Anchor>)
    requires multiset(x) == multiset(y) && Mapped(x, m)
    requires ResolveAll(attention, x, m, locate, anchors).Some?
    ensures Mapped(y, m)
    ensures ResolveAll(attention, y, m, locate, anchors).Some?
    ensures multiset(ResolveAll(attention, x, m, locate, anchors).value) ==
            multiset(ResolveAll(attention, y, m, locate, anchors).value)
    decreases |y|
  {
    hide Resolve, ResolveAll;
    AllMapped(x, y, m);
    AllResolved(attention, x, y, m, locate, anchors);
    if y != [] {
      var i := TakeLast(x, y);
      var n := |y| - 1;
      var rest := x[..i] + x[i + 1..];
      ResolvedWithout(attention, x, i, m, locate, anchors);
      assert y[..n] + y[n + 1..] == y[..n];
      ResolvedWithout(attention, y, n, m, locate, anchors);
      ResolvePermuted(attention, rest, y[..n], m, locate, anchors);
    }
  }

  lemma AllMapped(x: seq<string>, y: seq<string>, m: map<string, Proposed>)
    requires multiset(x) == multiset(y) && Mapped(x, m)
    ensures Mapped(y, m)
  {
    MembersOfMultiset(x, y);
    forall k | 0 <= k < |y| ensures y[k] in m {
      assert y[k] in x;
    }
  }

  lemma {:induction false} HeldCount(items: seq<Item>, row: HoldoutRow)
    ensures multiset(HeldRows(items))[row] == multiset(items)[Held(row)]
    decreases |items|
  {
    if items != [] {
      HeldCount(items[..|items| - 1], row);
      assert items == items[..|items| - 1] + [items[|items| - 1]];
    }
  }

  lemma {:induction false} ConvertedCount(items: seq<Item>, e: Entry)
    ensures multiset(ConvertedEntries(items))[e] == multiset(items)[Converted(e)]
    decreases |items|
  {
    if items != [] {
      var before, last := items[..|items| - 1], items[|items| - 1];
      ConvertedCount(before, e);
      assert items == before + [last];
      match last {
        case Held(_) => assert ConvertedEntries(items) == ConvertedEntries(before);
        case Converted(f) => assert ConvertedEntries(items) == ConvertedEntries(before) + [f];
      }
    }
  }

  lemma ItemsPermuted(x: seq<Item>, y: seq<Item>)
    requires multiset(x) == multiset(y)
    ensures multiset(HeldRows(x)) == multiset(HeldRows(y))
    ensures multiset(ConvertedEntries(x)) == multiset(ConvertedEntries(y))
  {
    forall row ensures multiset(HeldRows(x))[row] == multiset(HeldRows(y))[row] {
      HeldCount(x, row);
      HeldCount(y, row);
    }
    forall e ensures multiset(ConvertedEntries(x))[e] == multiset(ConvertedEntries(y))[e] {
      ConvertedCount(x, e);
      ConvertedCount(y, e);
    }
  }

  /** What resolution reads of an audit and passes on unchanged. */
  predicate SameRest(a: Audit, b: Audit) {
    a.anchors == b.anchors && a.inventoryTotal == b.inventoryTotal && a.other == b.other
  }

  lemma AssembleForgetsOrder(repo: Repo, x: seq<Item>, y: seq<Item>, base: seq<Entry>, base2: seq<Entry>,
                             h: Holdouts, h2: Holdouts, a: Audit, a2: Audit)
    requires multiset(x) == multiset(y) && multiset(base) == multiset(base2)
    requires h.other == h2.other && SameRest(a, a2) && DistinctKeys(HeldRows(x), HoldoutKey)
    requires Assemble(repo, x, base, h, a).Some?
    ensures Assemble(repo, y, base2, h2, a2) == Assemble(repo, x, base, h, a)
  {
    hide Sort, DistinctKeys, HeldRows, ConvertedEntries, FullDates, Reasons;
    ItemsPermuted(x, y);
    SortForgetsOrder(HeldRows(x), HeldRows(y), HoldoutKey);
    var all, all2 := base + ConvertedEntries(x), base2 + ConvertedEntries(y);
    SortSorted(all, EntryKey);
    DistinctKept(Sort(all, EntryKey), all, EntryKey);
    SortForgetsOrder(all, all2, EntryKey);
  }

  // ---- Proposals as a map ------------------------------------------------------------------------------------

  function ProposedKey(p: Proposed): SortKey {
    SortKey(p.key, "", "")
  }

  predicate Keyed(rows: seq<Proposed>) {
    forall k :: 0 <= k < |rows| ==> rows[k].key == JoinedKey(rows[k].category, rows[k].id)
  }

  lemma {:induction false} DistinctSnoc<T>(xs: seq<T>, x: T, key: T -> SortKey)
    ensures DistinctKeys(xs + [x], key) <==> DistinctKeys(xs, key) && NewKey(x, xs, key)
    decreases |xs|
  {
    if xs == [] {
      assert xs + [x] == [x] && [x][1..] == [];
    } else {
      assert (xs + [x])[1..] == xs[1..] + [x];
      DistinctSnoc(xs[1..], x, key);
      HeadFirst(xs);
      assert forall y :: y in xs[1..] + [x] <==> y in xs[1..] || y == x;
    }
  }

  lemma {:induction false} ProposalMapIsExact(rows: seq<Proposed>)
    ensures ProposalMap(rows).Some? <==> Keyed(rows) && DistinctKeys(rows, ProposedKey)
    ensures ProposalMap(rows).Some? ==> MapOf(rows, ProposalMap(rows).value)
    decreases |rows|
  {
    hide JoinedKey, Keyed, MapOf, DistinctKeys, NewKey;
    if rows == [] {
      NoProposals();
    } else {
      var before, last := rows[..|rows| - 1], rows[|rows| - 1];
      ProposalMapIsExact(before);
      DistinctSnoc(before, last, ProposedKey);
      KeyedSnoc(before, last);
      assert rows == before + [last];
      if ProposalMap(before).Some? {
        NewKeyIsNew(before, last, ProposalMap(before).value);
      }
    }
  }

  lemma NoProposals()
    ensures Keyed([]) && MapOf([], map[]) && DistinctKeys([], ProposedKey)
  {
  }

  lemma KeyedSnoc(rows: seq<Proposed>, p: Proposed)
    ensures Keyed(rows + [p]) <==> Keyed(rows) && p.key == JoinedKey(p.category, p.id)
  {
    hide JoinedKey;
    var all := rows + [p];
    if Keyed(all) {
      assert all[|rows|] == p;
      forall k | 0 <= k < |rows| ensures rows[k].key == JoinedKey(rows[k].category, rows[k].id) {
        assert all[k] == rows[k];
      }
    }
  }

  lemma NewKeyIsNew(rows: seq<Proposed>, p: Proposed, m: map<string, Proposed>)
    requires MapOf(rows, m)
    ensures NewKey(p, rows, ProposedKey) <==> p.key !in m
    ensures p.key !in m ==> MapOf(rows + [p], m[p.key := p])
  {
    if p.key in m {
      assert m[p.key] in rows && ProposedKey(m[p.key]) == ProposedKey(p);
    }
  }

  lemma ProposalsPermuted(x: seq<Proposed>, y: seq<Proposed>)
    requires multiset(x) == multiset(y)
    ensures ProposalMap(x) == ProposalMap(y)
  {
    hide JoinedKey, DistinctKeys, ProposalMap, MapOf, Keyed;
    ProposalMapIsExact(x);
    ProposalMapIsExact(y);
    MembersOfMultiset(x, y);
    if DistinctKeys(x, ProposedKey) {
      DistinctKept(x, y, ProposedKey);
    }
    if DistinctKeys(y, ProposedKey) {
      DistinctKept(y, x, ProposedKey);
    }
    KeyedPermuted(x, y);
    if ProposalMap(x).Some? {
      SameMap(x, y, ProposalMap(x).value, ProposalMap(y).value);
    }
  }

  predicate MapOf(rows: seq<Proposed>, m: map<string, Proposed>) {
    && (forall p :: p in rows ==> p.key in m && m[p.key] == p)
    && (forall key :: key in m ==> m[key] in rows && m[key].key == key)
  }

  lemma SameMap(x: seq<Proposed>, y: seq<Proposed>, m: map<string, Proposed>, n: map<string, Proposed>)
    requires MapOf(x, m) && MapOf(y, n) && forall p :: p in x <==> p in y
    ensures m == n
  {
    forall key ensures key in m ==> key in n && n[key] == m[key] {
      if key in m {
        assert m[key] in y;
      }
    }
    forall key ensures key in n ==> key in m {
      if key in n {
        assert n[key] in x;
      }
    }
    assert m.Keys == n.Keys;
  }

  lemma KeyedPermuted(x: seq<Proposed>, y: seq<Proposed>)
    requires forall p :: p in x <==> p in y
    ensures Keyed(x) <==> Keyed(y)
  {
    hide JoinedKey;
    if Keyed(x) {
      forall k | 0 <= k < |y| ensures y[k].key == JoinedKey(y[k].category, y[k].id) {
        assert y[k] in x;
      }
    }
    if Keyed(y) {
      forall k | 0 <= k < |x| ensures x[k].key == JoinedKey(x[k].category, x[k].id) {
        assert x[k] in y;
      }
    }
  }

  lemma KeysPermuted(category: string, x: seq<Governed>, y: seq<Governed>)
    requires multiset(x) == multiset(y)
    ensures multiset(GovernedKeys(category, x)) == multiset(GovernedKeys(category, y))
    decreases |y|
  {
    hide JoinedKey;
    MembersOfMultiset(x, y);
    if y != [] {
      var last := y[|y| - 1];
      var i := TakeLast(x, y);
      var rest := x[..i] + x[i + 1..];
      KeysPermuted(category, rest, y[..|y| - 1]);
      RemoveAt(GovernedKeys(category, x), i);
      assert GovernedKeys(category, rest) == GovernedKeys(category, x)[..i] + GovernedKeys(category, x)[i + 1..];
      assert GovernedKeys(category, y) == GovernedKeys(category, y[..|y| - 1]) + [JoinedKey(category, last.id)];
    }
  }

  lemma KeySetPermuted(x: seq<string>, y: seq<string>)
    requires multiset(x) == multiset(y)
    ensures KeySet(x) == KeySet(y)
  {
    MembersOfMultiset(x, y);
  }

  /** The resolved rows of a successful review. */
  function ReviewItems(repo: Repo, proposals: seq<Proposed>, holdouts: Holdouts, audit: Audit): seq<Item> {
    match ProposalMap(proposals)
    case None => []
    case Some(m) =>
      if !Coverage(m, holdouts, audit) then []
      else
        match Items(repo, m, GovernedKeys(HOLDOUT, holdouts.rows), GovernedKeys(ATTENTION, audit.attention),
            audit.anchors)
        case None => []
        case Some(items) => items
  }

  lemma ItemsForgetOrder(repo: Repo, m: map<string, Proposed>, hk: seq<string>, ak: seq<string>, hk2: seq<string>,
                         ak2: seq<string>, anchors: map<string, Anchor>)
    requires KeySet(hk) <= m.Keys && KeySet(ak) <= m.Keys && Items(repo, m, hk, ak, anchors).Some?
    requires multiset(hk) == multiset(hk2) && multiset(ak) == multiset(ak2)
    ensures KeySet(hk2) <= m.Keys && KeySet(ak2) <= m.Keys && Items(repo, m, hk2, ak2, anchors).Some?
    ensures multiset(Items(repo, m, hk, ak, anchors).value) == multiset(Items(repo, m, hk2, ak2, anchors).value)
  {
    hide ResolveAll, Resolve;
    KeySetPermuted(hk, hk2);
    KeySetPermuted(ak, ak2);
    KeysIn(hk, m);
    KeysIn(ak, m);
    ResolvePermuted(false, hk, hk2, m, repo.locate, anchors);
    ResolvePermuted(true, ak, ak2, m, repo.locate, anchors);
  }

  predicate DistinctHeld(repo: Repo, proposals: seq<Proposed>, holdouts: Holdouts, audit: Audit) {
    DistinctKeys(HeldRows(ReviewItems(repo, proposals, holdouts, audit)), HoldoutKey)
  }

  /**
   The resolved artifacts do not depend on the order of the proposals, of the governed rows, or of the
   audit's own entries.
   */
  lemma OrderDoesNotMatter(repo: Repo, p: seq<Proposed>, p2: seq<Proposed>, h: Holdouts, h2: Holdouts, a: Audit,
      a2: Audit)
    requires ApplyReview(repo, p, h, a).Some? && DistinctHeld(repo, p, h, a)
    requires multiset(p) == multiset(p2) && h2.Pending? && h.other == h2.other && SameRest(a, a2)
    requires multiset(h.rows) == multiset(h2.rows) && multiset(a.attention) == multiset(a2.attention)
    requires multiset(a.entries) == multiset(a2.entries) && a.summary.attentionRequired == a2.summary.attentionRequired
    ensures ApplyReview(repo, p2, h2, a2) == ApplyReview(repo, p, h, a)
  {
    hide Items, Assemble, JoinedKey, DistinctKeys, HeldRows, ProposalMap, GovernedKeys, KeySet;
    ProposalsPermuted(p, p2);
    var m := ProposalMap(p).value;
    KeysPermuted(HOLDOUT, h.rows, h2.rows);
    KeysPermuted(ATTENTION, a.attention, a2.attention);
    var hk, ak := GovernedKeys(HOLDOUT, h.rows), GovernedKeys(ATTENTION, a.attention);
    var hk2, ak2 := GovernedKeys(HOLDOUT, h2.rows), GovernedKeys(ATTENTION, a2.attention);
    KeySetPermuted(hk, hk2);
    KeySetPermuted(ak, ak2);
    ItemsForgetOrder(repo, m, hk, ak, hk2, ak2, a.anchors);
    MembersOfMultiset(a.attention, a2.attention);
    AllPending(h.rows, h2.rows);
    AssembleForgetsOrder(repo, Items(repo, m, hk, ak, a.anchors).value, Items(repo, m, hk2, ak2, a.anchors).value,
                         a.entries, a2.entries, h, h2, a, a2);
  }

  lemma AllPending(x: seq<Governed>, y: seq<Governed>)
    requires multiset(x) == multiset(y) && forall k :: 0 <= k < |x| ==> x[k].pending
    ensures forall k :: 0 <= k < |y| ==> y[k].pending
  {
    MembersOfMultiset(x, y);
    forall k | 0 <= k < |y| ensures y[k].pending {
      assert y[k] in x;
    }
  }
}
