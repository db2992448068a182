/** `insert_object_properties` as it is run: the loop over the insertions, the expected value, the gate. */
module JsonInsertLoops {
  import opened Text
  import opened JsonGrammar
  import opened JsonParser
  import opened JsonReader
  import opened JsonPaths
  import opened JsonValues
  import opened JsonWalk
  import opened JsonDumps
  import opened JsonMembers
  import opened JsonMemberTree
  import opened JsonSplice
  import opened JsonSurgery
  import opened JsonInsert
  import opened JsonInsertGate
  import opened JsonInsertRun
  import opened JsonInsertAgain
  import opened JsonInsertSeveral
  import opened JsonInsertText

  // ---- Taking the chunks out again ------------------------------------------------------------------------

  datatype Chunk = Chunk(at: nat, text: Text)

  /** The text with the chunks deleted, last one first; `None` if one of them is not there. */
  function Erased(s: Text, chunks: seq<Chunk>): Option<Text>
    decreases |chunks|
  {
    if chunks == [] then Some(s)
    else
      var c := chunks[|chunks| - 1];
      if c.at + |c.text| <= |s| && s[c.at..c.at + |c.text|] == c.text
      then Erased(s[..c.at] + s[c.at + |c.text|..], chunks[..|chunks| - 1])
      else None
  }

  lemma ErasedInsertion(s: Text, n: Node, ins: Insertion, ascii: bool, chunks: seq<Chunk>)
    requires n.Object? && 0 < n.end <= |s|
    ensures var c := Chunk(n.end - 1, ChunkText(s, n, ins.key, ins.value, ascii));
            Erased(Inserted(s, n, ins.key, ins.value, ascii), chunks + [c]) == Erased(s, chunks)
  {
    hide ChunkText;
    var chunk := ChunkText(s, n, ins.key, ins.value, ascii);
    var close, s2 := n.end - 1, Inserted(s, n, ins.key, ins.value, ascii);
    var c := Chunk(close, chunk);
    assert (chunks + [c])[..|chunks|] == chunks;
    assert s2[close..close + |chunk|] == chunk;
    assert s2[..close] + s2[close + |chunk|..] == s;
  }

  // ---- The loops ------------------------------------------------------------------------------------------

  method InsertStep(s: Text, ins: Insertion, ghost chunks: seq<Chunk>) returns (r: Result<Text>, ghost more: seq<Chunk>)
    ensures r == InsertOne(s, ins)
    ensures r.Ok? ==> Erased(r.value, more) == Erased(s, chunks)
  {
    hide ParseValue, Navigate, Present, Inserted, DetectEnsureAscii, CountKey, Erased;
    more := chunks;
    var parsed := Read(s);
    if parsed.Err? {
      return Err(parsed.error), more;
    }
    var target := Walk(parsed.value, ins.path);
    if target.Err? {
      return Err(target.error), more;
    }
    var n := target.value;
    if !n.Object? {
      return Err(SurgicalError), more;
    }
    NavigatedInside(s, ins.path);
    if CountKey(n.pairs, ins.key) > 0 {
      if Present(n, ins) {
        return Ok(s), more;
      }
      return Err(SurgicalError), more;
    }
    var ascii := DetectEnsureAscii(s);
    more := chunks + [Chunk(n.end - 1, ChunkText(s, n, ins.key, ins.value, ascii))];
    ErasedInsertion(s, n, ins, ascii, chunks);
    return Ok(Inserted(s, n, ins.key, ins.value, ascii)), more;
  }

  method InsertLoop(raw: Text, edits: seq<Insertion>) returns (r: Result<Text>, ghost chunks: seq<Chunk>)
    ensures r == InsertAll(raw, edits)
    ensures r.Ok? ==> Erased(r.value, chunks) == Some(raw)
  {
    hide InsertOne;
    var out := raw;
    chunks := [];
    var k := 0;
    while k < |edits|
      invariant k <= |edits| && InsertAll(raw, edits[..k]) == Ok(out)
      invariant Erased(out, chunks) == Some(raw)
    {
      assert edits[..k + 1][..k] == edits[..k];
      var step;
      step, chunks := InsertStep(out, edits[k], chunks);
      if step.Err? {
        InsertStops(raw, edits, k + 1);
        return step, chunks;
      }
      out := step.value;
      k := k + 1;
    }
    assert edits[..|edits|] == edits;
    return Ok(out), chunks;
  }

  lemma {:induction false} ExpectStops(v: Value, edits: seq<Insertion>, k: nat)
    requires k <= |edits| && ExpectAll(v, edits[..k]).Err?
    ensures ExpectAll(v, edits) == ExpectAll(v, edits[..k])
    decreases |edits|
  {
    hide ExpectOne;
    if k < |edits| {
      assert edits[..|edits| - 1][..k] == edits[..k];
      ExpectStops(v, edits[..|edits| - 1], k);
    } else {
      assert edits[..k] == edits;
    }
  }

  method ExpectLoop(v: Value, edits: seq<Insertion>) returns (r: Result<Value>)
    ensures r == ExpectAll(v, edits)
  {
    hide ExpectOne;
    var expected := v;
    var k := 0;
    while k < |edits|
      invariant k <= |edits| && ExpectAll(v, edits[..k]) == Ok(expected)
    {
      assert edits[..k + 1][..k] == edits[..k];
      var step := ExpectOne(expected, edits[k]);
      if step.Err? {
        ExpectStops(v, edits, k + 1);
        return step;
      }
      expected := step.value;
      k := k + 1;
    }
    assert edits[..|edits|] == edits;
    return Ok(expected);
  }

  /**
   `insert_object_properties`.  A text is only ever returned when its value is Python-equal to the expected
   one, and deleting the inserted chunks from it gives the original.  Insertions of finite values that survive
   being written, whose containers are new or there with exactly their value, are never refused by the gate:
   they parse to exactly the expected value, and calling the function again on the result gives it back as is
   unless some insertion went into the value of an earlier one.  Insertions of new members, whatever their values,
   succeed exactly when every key and value survives `json.dumps` at its turn.
   */
  method InsertObjectProperties(raw: Text, edits: seq<Insertion>)
    returns (r: Result<Text>, ghost chunks: seq<Chunk>, ghost texts: seq<Text>)
    ensures r == InsertProperties(raw, edits)
    ensures r.Ok? ==> Steps(texts, edits) && texts[0] == raw && texts[|edits|] == r.value
    ensures r.Ok? ==>
              && InsertAll(raw, edits) == r && Erased(r.value, chunks) == Some(raw)
              && Loads(raw).Ok? && ExpectAll(Loads(raw).value, edits).Ok? && Loads(r.value).Ok?
              && PyEqual(Loads(r.value).value, ExpectAll(Loads(raw).value, edits).value)
    ensures forall root :: DerivesDocument(raw, root, Strict) && AllOrdinary(edits) && ContainersFit(raw, edits) ==>
              && (r.Ok? <==> InsertAll(raw, edits).Ok?)
              && (r.Ok? ==>
                    && Loads(r.value) == ExpectAll(ValueOf(root), edits)
                    && InsertProperties(r.value, edits) ==
                       if exists k, j :: GrowsInto(raw, edits, k, j) then Err(SurgicalError) else r)
    ensures forall root :: DerivesDocument(raw, root, Strict) && NewMembers(raw, edits) ==>
              && (r.Ok? <==> forall k :: 0 <= k < |edits| ==> Survives(raw, edits, k))
              && (r.Ok? ==> Loads(r.value) == ExpectAll(ValueOf(root), edits))
    ensures forall root :: DerivesDocument(raw, root, Strict) && |edits| == 1 && Adds(root, edits[0])
                           && IsPython(edits[0].value) ==>
              (r.Ok? <==> FaithfulInsertion(edits[0], DetectEnsureAscii(raw)))
  {
    hide DerivesDocument, InsertAll, ExpectAll, Loads, ValueOf, PyEqual, Ordinary, Adds, IsPython, FaithfulInsertion,
      DetectEnsureAscii, Erased, ContainersFit, GrowsInto, NewMembers, Survives, Steps;
    texts := [];
    forall root | DerivesDocument(raw, root, Strict) && AllOrdinary(edits) && ContainersFit(raw, edits) &&
                  InsertAll(raw, edits).Ok?
      ensures InsertProperties(raw, edits) == InsertAll(raw, edits)
      ensures Loads(InsertAll(raw, edits).value) == ExpectAll(ValueOf(root), edits)
      ensures InsertProperties(InsertAll(raw, edits).value, edits) ==
              if exists k, j :: GrowsInto(raw, edits, k, j) then Err(SurgicalError) else InsertAll(raw, edits)
    {
      RunPasses(raw, root, edits);
      SecondCallIsExact(raw, root, edits);
    }
    forall root | DerivesDocument(raw, root, Strict) && |edits| == 1 && Adds(root, edits[0]) && IsPython(edits[0].value)
      ensures InsertAll(raw, edits).Ok? && Loads(raw).Ok? && ExpectAll(Loads(raw).value, edits).Ok?
      ensures Loads(InsertAll(raw, edits).value).Ok?
      ensures PyEqual(Loads(InsertAll(raw, edits).value).value, ExpectAll(Loads(raw).value, edits).value) <==>
              FaithfulInsertion(edits[0], DetectEnsureAscii(raw))
    {
      assert edits == [edits[0]];
      SingleIsExact(raw, root, edits[0]);
    }
    forall root | DerivesDocument(raw, root, Strict) && NewMembers(raw, edits)
      ensures InsertProperties(raw, edits).Ok? <==> forall k :: 0 <= k < |edits| ==> Survives(raw, edits, k)
      ensures InsertProperties(raw, edits).Ok? ==>
                && InsertProperties(raw, edits) == InsertAll(raw, edits)
                && Loads(InsertAll(raw, edits).value) == ExpectAll(ValueOf(root), edits)
    {
      SeveralAreExact(raw, root, edits);
    }
    r, chunks := InsertLoop(raw, edits);
    if r.Err? {
      return;
    }
    texts := AllSteps(raw, edits);
    var before, got := Loads(raw), Loads(r.value);
    if before.Err? {
      return Err(before.error), chunks, texts;
    }
    var expected := ExpectLoop(before.value, edits);
    if expected.Err? {
      return Err(expected.error), chunks, texts;
    }
    if got.Err? {
      return Err(got.error), chunks, texts;
    }
    if !PyEqual(got.value, expected.value) {
      return Err(SurgicalError), chunks, texts;
    }
  }
}
