/** `splice_scalars` as the source runs it, with what it promises its callers. */
module JsonSurgery {
  import opened Text
  import opened JsonStrings
  import opened JsonGrammar
  import opened JsonParser
  import opened JsonReader
  import opened JsonPaths
  import opened JsonValues
  import opened JsonLocality
  import opened JsonSplice
  import opened JsonSpliceGate
  import opened JsonWritten
  import opened JsonSpliceText

  /** The file escapes its non-ASCII characters. */
  predicate DetectEnsureAscii(raw: Text) {
    (exists k :: 0 <= k < |raw| - 1 && raw[k] == BACKSLASH && raw[k + 1] == LOWER_U) &&
    (forall k :: 0 <= k < |raw| ==> raw[k] < 128)
  }

  lemma EscapesIsDetected(raw: Text)
    ensures DetectEnsureAscii(raw) <==> Escapes(raw)
  {
  }

  predicate AllScalars(edits: seq<PathEdit>) {
    forall k :: 0 <= k < |edits| ==> edits[k].path != [] && IsScalar(edits[k].value)
  }

  lemma {:induction false} PlannedScalars(root: Node, edits: seq<PathEdit>, ascii: bool)
    requires Plan(root, edits, ascii).Ok? && forall k :: 0 <= k < |edits| ==> edits[k].path != []
    ensures AllScalars(edits)
    ensures forall x :: x in Plan(root, edits, ascii).value ==> HasLeaf(root, x.start, x.end)
    decreases |edits|
  {
    hide PlanOne, HasLeaf, IsScalar;
    if edits != [] {
      PlannedScalars(root, edits[..|edits| - 1], ascii);
      PlannedScalar(root, edits[|edits| - 1], ascii);
    }
  }

  lemma PlannedScalar(root: Node, e: PathEdit, ascii: bool)
    requires PlanOne(root, e, ascii).Ok? && e.path != []
    ensures IsScalar(e.value)
    ensures forall x :: x in PlanOne(root, e, ascii).value ==> HasLeaf(root, x.start, x.end)
  {
    hide Navigate, HasLeaf, Dump;
    if PlanOne(root, e, ascii).value != [] {
      NavigatedHasLeaf(root, e.path);
    }
  }

  lemma {:induction false} GuardedIsPlaced(raw: Text, spans: seq<Span>, from: nat)
    requires Disjoint(spans) && from <= |raw|
    requires forall x :: x in spans ==> x.start < x.end <= |raw|
    requires spans != [] ==> from <= spans[0].start
    ensures Placed(raw, spans, from)
    decreases |spans|
  {
    if spans != [] {
      assert spans[0] in spans;
      if |spans| > 1 {
        assert spans[1 - 1].end <= spans[1].start;
      }
      var rest := spans[1..];
      assert forall k :: 0 < k < |rest| ==> rest[k - 1] == spans[k] && rest[k] == spans[k + 1];
      GuardedIsPlaced(raw, rest, spans[0].end);
    }
  }

  lemma {:induction false} PlacedIsGuarded(raw: Text, spans: seq<Span>, from: nat, k: nat)
    requires Placed(raw, spans, from) && 0 < k < |spans|
    ensures spans[k - 1].end <= spans[k].start
    decreases |spans|
  {
    if k > 1 {
      PlacedIsGuarded(raw, spans[1..], spans[0].end, k - 1);
    }
  }

  lemma {:induction false} PlacedTail(raw: Text, spans: seq<Span>, from: nat, k: nat)
    requires Placed(raw, spans, from) && 0 < k <= |spans|
    ensures Placed(raw, spans[k..], spans[k - 1].end)
    decreases |spans|
  {
    if k > 1 {
      PlacedTail(raw, spans[1..], spans[0].end, k - 1);
      assert spans[1..][k - 1..] == spans[k..];
    }
  }

  method ApplySpans(raw: Text, ordered: seq<Span>) returns (newRaw: Text)
    requires Placed(raw, ordered, 0)
    ensures newRaw == SpliceDown(raw, ordered, 0) == Weave(raw, 0, ordered)
  {
    newRaw := raw;
    var k := |ordered|;
    if k > 0 {
      PlacedOrder(raw, ordered, 0, k - 1);
    }
    while k > 0
      invariant 0 <= k <= |ordered|
      invariant k > 0 ==> Placed(raw, ordered[k..], ordered[k - 1].end) &&
                          newRaw == SpliceDown(raw, ordered[k..], ordered[k - 1].end)
      invariant k == 0 ==> newRaw == SpliceDown(raw, ordered, 0)
    {
      PlacedTail(raw, ordered, 0, k);
      PlacedOrder(raw, ordered, 0, k - 1);
      var x := ordered[k - 1];
      if k > 1 {
        PlacedTail(raw, ordered, 0, k - 1);
      }
      assert ordered[k - 1..][1..] == ordered[k..];
      assert ordered[0..] == ordered;
      newRaw := newRaw[..x.start] + x.text + newRaw[x.end..];
      k := k - 1;
    }
    SplicedIsWoven(raw, ordered, 0);
    assert raw[..0] + Weave(raw, 0, ordered) == Weave(raw, 0, ordered);
  }

  /** The overlap guard. */
  method Overlapping(ordered: seq<Span>) returns (found: bool)
    ensures found <==> !Disjoint(ordered)
  {
    var k := 1;
    while k < |ordered|
      invariant 1 <= k
      invariant forall m :: 0 < m < k && m < |ordered| ==> ordered[m - 1].end <= ordered[m].start
    {
      if ordered[k - 1].end > ordered[k].start {
        return true;
      }
      k := k + 1;
    }
    return false;
  }

  /** The value the gate expects; `None` where Python raises on the way. */
  method Expect(v: Value, edits: seq<PathEdit>) returns (expected: Option<Value>)
    requires AllScalars(edits)
    ensures expected == SetAll(v, edits)
  {
    expected := Some(v);
    var k := 0;
    while k < |edits| && expected.Some?
      invariant k <= |edits| && expected == SetAll(v, edits[..k])
    {
      assert edits[..k + 1][..k] == edits[..k];
      expected := SetAt(expected.value, edits[k].path, PyValue(edits[k].value));
      k := k + 1;
    }
    if expected.None? {
      NothingAfterNone(v, edits, k);
    }
    assert edits[..|edits|] == edits;
  }

  lemma {:induction false} NothingAfterNone(v: Value, edits: seq<PathEdit>, k: nat)
    requires AllScalars(edits) && k <= |edits| && SetAll(v, edits[..k]).None?
    ensures SetAll(v, edits).None?
    decreases |edits|
  {
    if k < |edits| {
      assert edits[..|edits| - 1][..k] == edits[..k];
      NothingAfterNone(v, edits[..|edits| - 1], k);
    } else {
      assert edits[..k] == edits;
    }
  }

  method PlanSpans(root: Node, edits: seq<PathEdit>, ascii: bool) returns (r: Result<seq<Span>>)
    ensures r == Plan(root, edits, ascii)
  {
    var spans := [];
    var k := 0;
    while k < |edits|
      invariant k <= |edits| && Plan(root, edits[..k], ascii) == Ok(spans)
    {
      assert edits[..k + 1][..k] == edits[..k];
      var one := PlanOne(root, edits[k], ascii);
      if one.Err? {
        PlanStops(root, edits, ascii, k + 1);
        return Err(one.error);
      }
      spans := spans + one.value;
      k := k + 1;
    }
    assert edits[..|edits|] == edits;
    return Ok(spans);
  }

  lemma {:induction false} PlanStops(root: Node, edits: seq<PathEdit>, ascii: bool, k: nat)
    requires k <= |edits| && Plan(root, edits[..k], ascii).Err?
    ensures Plan(root, edits, ascii) == Plan(root, edits[..k], ascii)
    decreases |edits|
  {
    if k < |edits| {
      assert edits[..|edits| - 1][..k] == edits[..k];
      PlanStops(root, edits[..|edits| - 1], ascii, k);
    } else {
      assert edits[..k] == edits;
    }
  }

  /**
   The splice.  It only ever returns a text whose value is Python-equal to the edited value; and for
   edits of distinct scalar leaves it succeeds exactly when every changing value survives
   `json.dumps`, keeps every byte outside the changed tokens, and parses to exactly the edited value.
   */
  method SpliceScalars(raw: Text, edits: seq<PathEdit>) returns (r: Result<Text>)
    requires forall k :: 0 <= k < |edits| ==> edits[k].path != []
    ensures edits == [] ==> r == Ok(raw)
    ensures edits != [] && ParseDocument(raw, Strict).Err? ==> r.Err?
    ensures edits != [] && r.Ok? && r.value != raw ==>
              && AllScalars(edits) && Loads(raw).Ok? && Loads(r.value).Ok?
              && SetAll(Loads(raw).value, edits).Some?
              && PyEqual(Loads(r.value).value, SetAll(Loads(raw).value, edits).value)
    ensures forall root :: edits != [] && DerivesDocument(raw, root, Strict) && Addressed(root, edits) ==>
              var ascii := DetectEnsureAscii(raw);
              && (r.Ok? <==> AllFaithful(root, edits, ascii))
              && (r.Err? ==> r.error.SurgicalError?)
              && (r.Ok? ==>
                    && Plan(root, edits, ascii).Ok?
                    && Placed(raw, Sorted(Plan(root, edits, ascii).value), 0)
                    && r.value == Weave(raw, 0, Sorted(Plan(root, edits, ascii).value))
                    && Edits(raw, root, edits, Escapes(raw), r.value)
                    && SetAll(ValueOf(root), edits).Some?
                    && Loads(r.value) == Ok(SetAll(ValueOf(root), edits).value))
  {
    hide TokenValue, HasLeaf, Derives, Navigate, Placed, PyEqual, SetAll, SpliceDown, Weave, Sorted, ParseValue,
      Plan, WsEnd, DetectEnsureAscii, AllFaithful, Addressed, Loads, ValueOf, DerivesDocument, Edits, Escapes;
    if edits == [] {
      return Ok(raw);
    }
    var ascii := DetectEnsureAscii(raw);
    var parsed := Read(raw);
    if parsed.Err? {
      return Err(parsed.error);
    }
    var root := parsed.value;
    SameRoot(raw, root);
    EscapesIsDetected(raw);
    if Addressed(root, edits) {
      GateIsExact(raw, root, edits, ascii);
      SplicedIsEdits(raw, root, edits, ascii);
    }
    var planned := PlanSpans(root, edits, ascii);
    if planned.Err? {
      return Err(planned.error);
    }
    var spans := planned.value;
    PlannedScalars(root, edits, ascii);
    if spans == [] {
      NothingToSplice(raw);
      if Addressed(root, edits) {
        UnchangedIsFaithful(root, edits, ascii);
      }
      return Ok(raw);
    }
    var ordered := Sorted(spans);
    SortedMembers(spans);
    var overlap := Overlapping(ordered);
    if overlap {
      if Addressed(root, edits) {
        AllGuarded(raw, ordered);
      }
      return Err(SurgicalError);
    }
    forall x | x in ordered ensures x.start < x.end <= |raw| {
      StrictLeafToken(raw, root, x.start, x.end);
    }
    GuardedIsPlaced(raw, ordered, 0);
    var newRaw := ApplySpans(raw, ordered);
    LoadsStrict(raw, root);
    var expected := Expect(Loads(raw).value, edits);
    if expected.None? {
      return Err(ValueError);
    }
    var got := Loads(newRaw);
    if got.Err? {
      return Err(SurgicalError);
    }
    if !PyEqual(got.value, expected.value) {
      return Err(SurgicalError);
    }
    return Ok(newRaw);
  }

  lemma SameRoot(raw: Text, root: Node)
    requires ParseDocument(raw, Strict) == Ok(root)
    ensures DerivesDocument(raw, root, Strict)
    ensures forall other :: DerivesDocument(raw, other, Strict) ==> other == root
  {
    hide ParseValue, Derives, WsEnd;
    ParserIsExact(raw, root, Strict);
    forall other | DerivesDocument(raw, other, Strict) ensures other == root {
      ParserIsExact(raw, other, Strict);
    }
  }

  lemma LoadsStrict(raw: Text, root: Node)
    requires DerivesDocument(raw, root, Strict)
    ensures Loads(raw) == Ok(ValueOf(root))
  {
    hide ParseValue, Derives, WsEnd;
    StrictDerives(raw, root);
    ParserIsExact(raw, root, Lenient);
  }

  lemma StrictLeafToken(raw: Text, root: Node, a: nat, b: nat)
    requires DerivesDocument(raw, root, Strict) && HasLeaf(root, a, b)
    ensures a < b <= |raw|
  {
    hide TokenValue, HasLeaf, Derives, WsEnd;
    LeafToken(raw, root, a, b, Strict);
  }

  lemma AllGuarded(raw: Text, spans: seq<Span>)
    requires Placed(raw, spans, 0)
    ensures Disjoint(spans)
  {
    forall k | 0 < k < |spans| ensures spans[k - 1].end <= spans[k].start {
      PlacedIsGuarded(raw, spans, 0, k);
    }
  }

  lemma NothingToSplice(raw: Text)
    ensures Sorted([]) == [] && Placed(raw, [], 0) && Weave(raw, 0, []) == raw && SpliceDown(raw, [], 0) == raw
  {
    assert raw[0..] == raw;
  }

  /** An empty plan means no edit changes anything. */
  lemma {:induction false} UnchangedIsFaithful(root: Node, edits: seq<PathEdit>, ascii: bool)
    requires Addressed(root, edits) && Plan(root, edits, ascii) == Ok([])
    ensures AllFaithful(root, edits, ascii)
    decreases |edits|
  {
    hide Navigate, Dump, Faithful, PlanOne, Changes, Targeted;
    if edits != [] {
      var before, last := edits[..|edits| - 1], edits[|edits| - 1];
      assert Plan(root, before, ascii) == Ok([]) && PlanOne(root, last, ascii) == Ok([]);
      UnchangedIsFaithful(root, before, ascii);
      NothingPlanned(root, last, ascii);
      forall k | 0 <= k < |edits| && Changes(root, edits[k]) ensures Faithful(edits[k].value, ascii) {
        assert k < |before| ==> before[k] == edits[k];
      }
    }
  }

  lemma NothingPlanned(root: Node, e: PathEdit, ascii: bool)
    requires Targeted(root, e) && PlanOne(root, e, ascii) == Ok([])
    ensures !Changes(root, e)
  {
    hide Navigate, Dump;
  }

  // ---- Where the gate fires -------------------------------------------------------------------------------

  const E_ACUTE: Text := [BACKSLASH, LOWER_U, 48, 48, 101, 57]

  /** The text `["\u00e9"]`, which escapes its non-ASCII character. */
  const ESCAPED: Text := [LBRACKET] + Quoted(E_ACUTE) + [RBRACKET]

  const FIRST: Step := Step([ZERO], Some(0))

  lemma AcuteToken()
    ensures TokenValue(Quoted(E_ACUTE), Strict) == Some(Str([233]))
  {
    var b := E_ACUTE;
    assert Hex4(b, 2) == Some(233);
    assert FirstUnit(b) == Some(Unit(6, 233));
    var rest: Text := [];
    assert b[6..] == rest && Decode(rest) == Some(rest);
    assert [233] + rest == [233];
    assert Decode(b) == Some([233]);
    assert Quoted(b)[1..|Quoted(b)| - 1] == b;
  }

  lemma EscapedDerives() returns (root: Node)
    ensures root == Array(0, 10, Items(Leaf(1, 9, Str([233])), NoItems))
    ensures DerivesDocument(ESCAPED, root, Strict) && DetectEnsureAscii(ESCAPED)
  {
    hide TokenValue;
    root := Array(0, 10, Items(Leaf(1, 9, Str([233])), NoItems));
    AcuteToken();
    assert ESCAPED[1..9] == Quoted(E_ACUTE);
    assert ESCAPED[1] == QUOTE && ESCAPED[2] == BACKSLASH && ESCAPED[2 + 1] == LOWER_U && ESCAPED[9] == RBRACKET;
    assert Derives(ESCAPED, root.items.head, Strict);
    assert WsEnd(ESCAPED, 0) == 0 && WsEnd(ESCAPED, 1) == 1 && WsEnd(ESCAPED, 9) == 9 && WsEnd(ESCAPED, 10) == 10;
    assert |ESCAPED| == 10 && ESCAPED[0] == LBRACKET;
    assert DerivesItems(ESCAPED, root.items, 1, 9, Strict);
    assert Derives(ESCAPED, root, Strict);
  }

  /** The guard that is said never to fire: on a NaN, and on a high surrogate directly before a low one. */
  lemma GateFires() returns (root: Node, nan: seq<PathEdit>, pair: seq<PathEdit>)
    ensures DerivesDocument(ESCAPED, root, Strict) && DetectEnsureAscii(ESCAPED)
    ensures nan == [PathEdit([FIRST], PyNaN)] && pair == [PathEdit([FIRST], PyStr([0xD83D, 0xDE00]))]
    ensures Addressed(root, nan) && !AllFaithful(root, nan, true)
    ensures Addressed(root, pair) && !AllFaithful(root, pair, true)
  {
    hide DerivesDocument, DetectEnsureAscii;
    root := EscapedDerives();
    nan, pair := [PathEdit([FIRST], PyNaN)], [PathEdit([FIRST], PyStr([0xD83D, 0xDE00]))];
    assert [FIRST][1..] == [];
    assert Navigate(root, [FIRST]) == Ok(root.items.head);
    var two: Text := [0xD83D, 0xDE00];
    assert IsHigh(two[0]) && IsLow(two[0 + 1]);
    assert Changes(root, nan[0]) && Changes(root, pair[0]);
  }
}
