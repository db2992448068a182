/**
 `apply_file_patches` on a JSON file whose patches all set a scalar: the coercion of every patch, the outcomes,
 and the text that is written.  The schema that coerces an incoming text is a parameter, and so is the whole-file
 rewriting that `write_json_edits` falls back to.
 */
module ApplyJsonFile {
  import opened Text
  import opened JsonGrammar
  import opened JsonPaths
  import opened JsonSplice
  import opened JsonSpliceGate
  import opened JsonSurgery
  import opened JsonValues

  import T = ApplyTransaction

  datatype ScalarPatch = ScalarPatch(id: string, path: seq<Step>, incoming: Text)

  /** `coerce_json_scalar`, given the path, the incoming text and the current value; `None` where it raises. */
  type Coerce = (seq<Step>, Text, Value) -> Option<Py>

  ghost predicate ToScalars(coerce: Coerce) {
    forall path, incoming, current ::
      coerce(path, incoming, current).Some? ==> IsScalar(coerce(path, incoming, current).value)
  }

  predicate HavePaths(patches: seq<ScalarPatch>) {
    forall k :: 0 <= k < |patches| ==> patches[k].path != []
  }

  /** What the patch assigns, if its path exists and its text can be coerced. */
  function Coerced(coerce: Coerce, v: Value, p: ScalarPatch): Option<Py> {
    match GetAt(v, p.path) case None => None case Some(current) => coerce(p.path, p.incoming, current)
  }

  function Edits(coerce: Coerce, v: Value, patches: seq<ScalarPatch>): seq<PathEdit> {
    if patches == [] then []
    else
      var p := patches[|patches| - 1];
      Edits(coerce, v, patches[..|patches| - 1]) +
      match Coerced(coerce, v, p) case None => [] case Some(x) => [PathEdit(p.path, x)]
  }

  function Outcomes(coerce: Coerce, v: Value, patches: seq<ScalarPatch>): map<string, T.Outcome> {
    if patches == [] then map[]
    else
      var p := patches[|patches| - 1];
      Outcomes(coerce, v, patches[..|patches| - 1])[p.id :=
          if Coerced(coerce, v, p).Some? then T.Done else T.ValidationError]
  }

  /** The patch is done if its path is there and the schema takes its text, and a validation error otherwise. */
  predicate JudgedOne(coerce: Coerce, v: Value, p: ScalarPatch, outcomes: map<string, T.Outcome>) {
    && p.id in outcomes && outcomes[p.id] in {T.Done, T.ValidationError}
    && (outcomes[p.id] == T.Done <==>
        GetAt(v, p.path).Some? && coerce(p.path, p.incoming, GetAt(v, p.path).value).Some?)
  }

  /** Of patches with one id the last one decides. */
  predicate Judged(coerce: Coerce, v: Value, patches: seq<ScalarPatch>, outcomes: map<string, T.Outcome>) {
    forall k :: 0 <= k < |patches| && (forall j :: k < j < |patches| ==> patches[j].id != patches[k].id) ==>
      JudgedOne(coerce, v, patches[k], outcomes)
  }

  lemma {:induction false} OutcomeIsJudged(coerce: Coerce, v: Value, patches: seq<ScalarPatch>, k: nat)
    requires k < |patches| && forall j :: k < j < |patches| ==> patches[j].id != patches[k].id
    ensures JudgedOne(coerce, v, patches[k], Outcomes(coerce, v, patches))
    decreases |patches|
  {
    hide GetAt;
    if k < |patches| - 1 {
      var before := patches[..|patches| - 1];
      assert forall j :: 0 <= j < |before| ==> before[j] == patches[j];
      OutcomeIsJudged(coerce, v, before, k);
    }
  }

  lemma OutcomesAreJudged(coerce: Coerce, v: Value, patches: seq<ScalarPatch>)
    ensures Judged(coerce, v, patches, Outcomes(coerce, v, patches))
  {
    hide GetAt, JudgedOne;
    forall k | 0 <= k < |patches| && forall j :: k < j < |patches| ==> patches[j].id != patches[k].id
      ensures JudgedOne(coerce, v, patches[k], Outcomes(coerce, v, patches))
    {
      OutcomeIsJudged(coerce, v, patches, k);
    }
  }

  lemma {:induction false} EditsAreScalars(coerce: Coerce, v: Value, patches: seq<ScalarPatch>)
    requires ToScalars(coerce) && HavePaths(patches)
    ensures AllScalars(Edits(coerce, v, patches))
    decreases |patches|
  {
    hide GetAt;
    if patches != [] {
      EditsAreScalars(coerce, v, patches[..|patches| - 1]);
    }
  }

  /** The loop over the patches. */
  method CoerceAll(coerce: Coerce, v: Value, patches: seq<ScalarPatch>)
    returns (edits: seq<PathEdit>, outcomes: map<string, T.Outcome>)
    ensures edits == Edits(coerce, v, patches) && outcomes == Outcomes(coerce, v, patches)
  {
    hide GetAt, Coerced;
    edits, outcomes := [], map[];
    var k := 0;
    while k < |patches|
      invariant k <= |patches|
      invariant edits == Edits(coerce, v, patches[..k]) && outcomes == Outcomes(coerce, v, patches[..k])
    {
      assert patches[..k + 1][..k] == patches[..k];
      assert patches[..k + 1] != [] && patches[..k + 1][k] == patches[k];
      var value := Coerced(coerce, v, patches[k]);
      if value.Some? {
        edits := edits + [PathEdit(patches[k].path, value.value)];
      }
      outcomes := outcomes[patches[k].id := if value.Some? then T.Done else T.ValidationError];
      k := k + 1;
    }
    assert patches[..|patches|] == patches;
  }

  /** `write_json_edits`: the splice, or, where it refuses, the whole file. */
  method WriteJsonEdits(raw: Text, edits: seq<PathEdit>, dumpLike: (Value, Text) -> Text) returns (r: Result<Text>)
    requires AllScalars(edits)
    ensures edits == [] ==> r == Ok(raw)
    ensures forall root :: edits != [] && DerivesDocument(raw, root, Strict) && Addressed(root, edits) ==>
              && SetAll(ValueOf(root), edits).Some? && r.Ok?
              && if AllFaithful(root, edits, DetectEnsureAscii(raw))
                 then Loads(r.value) == Ok(SetAll(ValueOf(root), edits).value)
                 else r.value == dumpLike(SetAll(ValueOf(root), edits).value, raw)
  {
    hide Navigate, Placed, PyEqual, SetAll, Weave, Sorted, Plan, DetectEnsureAscii, AllFaithful, Addressed, Loads,
      ValueOf, DerivesDocument;
    forall root | DerivesDocument(raw, root, Strict) && Addressed(root, edits)
      ensures Loads(raw) == Ok(ValueOf(root)) && SetAll(ValueOf(root), edits).Some?
    {
      GateIsExact(raw, root, edits, false);
    }
    r := SpliceScalars(raw, edits);
    if r.Err? && r.error.SurgicalError? {
      var before := Loads(raw);
      if before.Err? {
        return Err(before.error);
      }
      var all := Expect(before.value, edits);
      r := if all.Some? then Ok(dumpLike(all.value, raw)) else Err(ValueError);
    }
  }

  /**
   The file.  A text that is no JSON makes every patch a validation error and stays as it is.  Otherwise the
   outcomes are those of the coercions, and the patches that could be coerced are written, all of them and
   nothing else, whatever became of the others.
   */
  method ApplyScalarPatches(coerce: Coerce, raw: Text, patches: seq<ScalarPatch>, dumpLike: (Value, Text) -> Text)
    returns (outcomes: map<string, T.Outcome>, r: Result<Text>)
    requires ToScalars(coerce) && HavePaths(patches)
    ensures Loads(raw).Err? ==>
              r == Ok(raw) && outcomes == map p | p in patches :: p.id := T.ValidationError
    ensures Loads(raw).Ok? ==>
              && outcomes == Outcomes(coerce, Loads(raw).value, patches)
              && Judged(coerce, Loads(raw).value, patches, outcomes)
    ensures forall root ::
              DerivesDocument(raw, root, Strict) && Addressed(root, Edits(coerce, ValueOf(root), patches)) ==>
              var edits := Edits(coerce, ValueOf(root), patches);
              && Loads(raw) == Ok(ValueOf(root)) && SetAll(ValueOf(root), edits).Some? && r.Ok?
              && if AllFaithful(root, edits, DetectEnsureAscii(raw))
                 then Loads(r.value) == Ok(SetAll(ValueOf(root), edits).value)
                 else r.value == dumpLike(SetAll(ValueOf(root), edits).value, raw)
  {
    hide Navigate, Placed, PyEqual, SetAll, Weave, Sorted, Plan, DetectEnsureAscii, AllFaithful, Addressed, Loads,
      ValueOf, DerivesDocument, Edits, Outcomes, ToScalars, Judged;
    forall root | DerivesDocument(raw, root, Strict) ensures Loads(raw) == Ok(ValueOf(root)) {
      LoadsStrict(raw, root);
    }
    var document := Loads(raw);
    if document.Err? {
      return map p | p in patches :: p.id := T.ValidationError, Ok(raw);
    }
    var edits;
    edits, outcomes := CoerceAll(coerce, document.value, patches);
    OutcomesAreJudged(coerce, document.value, patches);
    EditsAreScalars(coerce, document.value, patches);
    NoEdits(raw, document.value);
    r := WriteJsonEdits(raw, edits, dumpLike);
  }

  lemma NoEdits(raw: Text, v: Value)
    ensures SetAll(v, []) == Some(v)
    ensures forall root, ascii :: AllFaithful(root, [], ascii)
  {
  }

  lemma {:induction false} EditMade(coerce: Coerce, v: Value, patches: seq<ScalarPatch>, k: nat)
    requires k < |patches| && Coerced(coerce, v, patches[k]).Some?
    ensures PathEdit(patches[k].path, Coerced(coerce, v, patches[k]).value) in Edits(coerce, v, patches)
    decreases |patches|
  {
    hide GetAt;
    if k < |patches| - 1 {
      EditMade(coerce, v, patches[..|patches| - 1], k);
    }
  }

  lemma {:induction false} UnchangedNotAssigned(root: Node, edits: seq<PathEdit>, i: nat)
    requires Addressed(root, edits) && i < |edits| && !Changes(root, edits[i])
    ensures Target(root, edits[i]).start !in Assigned(root, edits)
    decreases |edits|
  {
    hide Navigate, PyValue;
    var before := edits[..|edits| - 1];
    if i < |before| {
      UnchangedNotAssigned(root, before, i);
    } else {
      AssignedStarts(root, before, false, Target(root, edits[i]).start);
    }
  }

  /** After all the assignments, each edited path reads its value. */
  lemma EditReads(root: Node, edits: seq<PathEdit>, i: nat)
    requires Addressed(root, edits) && i < |edits|
    ensures GetAt(ValueOf(SetLeaves(root, Assigned(root, edits))), edits[i].path) == Some(PyValue(edits[i].value))
  {
    hide Navigate, PyValue, Assigned, SetLeaves, GetAt, ValueOf;
    ReadRevalued(root, edits[i], Assigned(root, edits));
    if Changes(root, edits[i]) {
      MapsAt(root, edits, false, i);
    } else {
      UnchangedNotAssigned(root, edits, i);
    }
  }

  /** The patch fails, and the leaf it names is none that the edits write. */
  predicate LeftAlone(coerce: Coerce, root: Node, edits: seq<PathEdit>, p: ScalarPatch)
    requires forall k :: 0 <= k < |edits| ==> Targeted(root, edits[k])
  {
    && Coerced(coerce, ValueOf(root), p).None?
    && Navigate(root, p.path).Ok? && Navigate(root, p.path).value.Leaf?
    && !Started(root, edits, Navigate(root, p.path).value.start)
  }

  /**
   A patch with a validation error stops no other: afterwards every patch that could be coerced reads as its
   value, and a leaf that none of them names reads as before.
   */
  lemma OthersAreWritten(coerce: Coerce, raw: Text, root: Node, patches: seq<ScalarPatch>, p: ScalarPatch)
    requires HavePaths(patches) && p in patches
    requires DerivesDocument(raw, root, Strict) && Addressed(root, Edits(coerce, ValueOf(root), patches))
    ensures SetAll(ValueOf(root), Edits(coerce, ValueOf(root), patches)).Some?
    ensures Coerced(coerce, ValueOf(root), p).Some? ==>
              GetAt(SetAll(ValueOf(root), Edits(coerce, ValueOf(root), patches)).value, p.path) ==
              Some(PyValue(Coerced(coerce, ValueOf(root), p).value))
    ensures LeftAlone(coerce, root, Edits(coerce, ValueOf(root), patches), p) ==>
              GetAt(SetAll(ValueOf(root), Edits(coerce, ValueOf(root), patches)).value, p.path) ==
              GetAt(ValueOf(root), p.path)
  {
    hide Navigate, GetAt, SetAll, SetLeaves, ValueOf, Derives, WsEnd, PyValue, Coerced, Assigned, Edits, Changes,
      Started;
    var edits := Edits(coerce, ValueOf(root), patches);
    DerivedIsOrdered(raw, root, Strict);
    SetAllIsAssigned(root, edits);
    var x := Coerced(coerce, ValueOf(root), p);
    if x.Some? {
      var k :| 0 <= k < |patches| && patches[k] == p;
      EditMade(coerce, ValueOf(root), patches, k);
      var i :| 0 <= i < |edits| && edits[i] == PathEdit(p.path, x.value);
      EditReads(root, edits, i);
    }
    if LeftAlone(coerce, root, edits, p) {
      AssignedStarts(root, edits, false, Navigate(root, p.path).value.start);
      LeafReads(root, p.path, Assigned(root, edits));
    }
  }

  lemma LeafReads(root: Node, path: seq<Step>, m: map<nat, Value>)
    requires Navigate(root, path).Ok? && Navigate(root, path).value.Leaf? && path != []
    requires Navigate(root, path).value.start !in m
    ensures GetAt(ValueOf(SetLeaves(root, m)), path) == GetAt(ValueOf(root), path)
  {
    hide Navigate, GetAt, SetLeaves;
    ReadRevalued(root, PathEdit(path, PyNone), m);
    NavigatedValue(root, path);
  }
}
