/** Walking a dotted path through the parsed tree, as the source's loops do. */
module JsonWalk {
  import opened Text
  import opened JsonGrammar
  import opened JsonParser
  import opened JsonReader
  import opened JsonPaths
  import opened JsonMemberTree

  /** The inner loop over an object's members: the last one with the key wins. */
  method FindMember(pairs: Pairs, key: Text) returns (found: Option<Node>)
    ensures found == Lookup(pairs, key)
  {
    found := None;
    var rest := pairs;
    while rest.Pairs?
      invariant Lookup(pairs, key) == if Lookup(rest, key).Some? then Lookup(rest, key) else found
      decreases rest
    {
      if rest.key == key {
        found := Some(rest.child);
      }
      rest := rest.tail;
    }
  }

  /** `_navigate`. */
  method Walk(root: Node, path: seq<Step>) returns (r: Result<Node>)
    ensures r == Navigate(root, path)
  {
    var node := root;
    var k := 0;
    while k < |path|
      invariant k <= |path| && Navigate(root, path) == Navigate(node, path[k..])
    {
      var step := path[k];
      assert path[k..][0] == step && path[k..][1..] == path[k + 1..];
      if node.Leaf? {
        return Err(SurgicalError);
      }
      if node.Object? {
        var found := FindMember(node.pairs, step.key);
        if found.None? {
          return Err(SurgicalError);
        }
        node := found.value;
      } else {
        if step.index.None? || step.index.value < 0 || step.index.value >= Count(node.items) {
          return Err(SurgicalError);
        }
        node := Nth(node.items, step.index.value);
      }
      k := k + 1;
    }
    assert path[|path|..] == [];
    return Ok(node);
  }

  /**
   `locate`: it succeeds exactly where the path leads somewhere, and the span it returns holds the text of
   the value that the decoded document has there.
   */
  method Locate(raw: Text, path: seq<Step>) returns (r: Result<(nat, nat)>)
    ensures r.Ok? <==> exists root :: DerivesDocument(raw, root, Strict) && Navigate(root, path).Ok?
    ensures forall root :: r.Ok? && DerivesDocument(raw, root, Strict) ==>
              Navigate(root, path).Ok? && SpanHolds(raw, ValueOf(root), path, r.value, Navigate(root, path).value)
  {
    hide DerivesDocument, Derives, Navigate, ParseDocument, SpanHolds;
    var root := Read(raw);
    if root.Err? {
      return Err(root.error);
    }
    var node := Walk(root.value, path);
    if node.Err? {
      return Err(node.error);
    }
    NavigatedSpan(raw, root.value, path);
    return Ok((node.value.start, node.value.end));
  }

  /** The stretch of the text derives this node, and this node is what the document holds at the path. */
  predicate SpanHolds(raw: Text, document: Value, path: seq<Step>, span: (nat, nat), n: Node) {
    && span.0 < span.1 <= |raw| && span == (n.start, n.end) && Derives(raw, n, Strict)
    && GetAt(document, path) == Some(ValueOf(n))
  }

  lemma NavigatedSpan(raw: Text, root: Node, path: seq<Step>)
    requires DerivesDocument(raw, root, Strict) && Navigate(root, path).Ok?
    ensures var n := Navigate(root, path).value; SpanHolds(raw, ValueOf(root), path, (n.start, n.end), n)
  {
    hide Derives, Navigate;
    TargetDerives(raw, root, path, Strict);
    NavigatedValue(root, path);
  }
}
