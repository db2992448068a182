/** What one insertion writes, character by character, and where the indentation comes from. */
module JsonInsertText {
  import opened Text
  import opened JsonGrammar
  import opened JsonParser
  import opened JsonPaths
  import opened JsonValues
  import opened JsonMembers
  import opened JsonMemberTree
  import opened JsonSurgery
  import opened JsonWritten
  import opened JsonInsert

  /** The last line before `close` begins at `line`. */
  predicate LineBegins(s: Text, line: nat, close: nat)
    requires close <= |s|
  {
    line <= close && (line > 0 ==> s[line - 1] == 10) && forall k :: line <= k < close ==> s[k] != 10
  }

  /** Only tabs, carriage returns and blanks. */
  predicate OnlyBlanks(t: Text) {
    forall k :: 0 <= k < |t| ==> t[k] in {9, 13, 32}
  }

  /** `w` is what stands before `close` on its line, if it is blank, and nothing otherwise. */
  ghost predicate Indents(s: Text, close: nat, w: Text)
    requires close <= |s|
  {
    exists line: nat ::
      LineBegins(s, line, close) && w == if OnlyBlanks(s[line..close]) then s[line..close] else []
  }

  /**
   `s2` is `s` with the member written before the closing brace of `n`: after a comma and on a line of its own, two
   blanks deeper than the brace; in an empty object without the comma, and with the brace on a line of its own too.
   */
  predicate Writes(s: Text, n: Node, ins: Insertion, w: Text, s2: Text)
    requires n.Object? && 0 < n.end <= |s|
  {
    var close := n.end - 1;
    var member := w + [32, 32] + DumpString(ins.key, Escapes(s)) + [58, 32] + Dump(ins.value, Escapes(s));
    s2 == s[..close] + (if n.pairs.NoPairs? then [10] + member + [10] + w else [44, 10] + member) + s[close..]
  }

  /** The path leads to an object in which the member is not there, or is there once with this value. */
  predicate Insertable(s: Text, ins: Insertion) {
    && ParseDocument(s, Strict).Ok?
    && var found := Navigate(ParseDocument(s, Strict).value, ins.path);
    && found.Ok? && found.value.Object?
    && (CountKey(found.value.pairs, ins.key) == 0 || Present(found.value, ins))
  }

  /** The member is written, or it is there and nothing is. */
  ghost predicate Step(s: Text, ins: Insertion, s2: Text)
    requires Insertable(s, ins)
  {
    var n := Navigate(ParseDocument(s, Strict).value, ins.path).value;
    && 0 < n.end <= |s|
    && if CountKey(n.pairs, ins.key) == 0 then exists w :: Indents(s, n.end - 1, w) && Writes(s, n, ins, w, s2)
       else s2 == s
  }

  lemma IndentIsExact(s: Text, n: Node, d: Dialect)
    requires Derives(s, n, d) && n.Object?
    ensures 0 < n.end <= |s| && Indents(s, n.end - 1, ClosingIndent(s, n.end - 1))
  {
    hide Derives;
    LastChar(s, n, d);
    var close := n.end - 1;
    var line := LineStart(s, close);
    ClosingIndentIsBlank(s, n, d);
    assert LineBegins(s, line, close);
    var t, w := s[line..close], ClosingIndent(s, close);
    if OnlyBlanks(t) {
      forall k | line <= k < close ensures IsPySpace(s[k]) {
        assert s[k] == t[k - line];
      }
    }
  }

  lemma Written(s: Text, n: Node, ins: Insertion)
    requires n.Object? && 0 < n.end <= |s|
    ensures Writes(s, n, ins, ClosingIndent(s, n.end - 1),
                   Inserted(s, n, ins.key, ins.value, DetectEnsureAscii(s)))
  {
    hide ClosingIndent, DumpString, Dump;
    var ascii := DetectEnsureAscii(s);
    assert ascii == Escapes(s);
    var w, key, value := ClosingIndent(s, n.end - 1), DumpString(ins.key, ascii), Dump(ins.value, ascii);
    var member := w + [32, 32] + key + [58, 32] + value;
    assert MemberText(w + [SPACE, SPACE], ins.key, ins.value, ascii) == member;
    assert [10] + member + [10] + w == [LF] + (member + ([LF] + w));
    assert [44, 10] + member == [COMMA] + ([LF] + member);
  }

  /** One insertion: when it succeeds, and the text it gives. */
  lemma InsertOneIsExact(s: Text, ins: Insertion)
    ensures InsertOne(s, ins).Ok? <==> Insertable(s, ins)
    ensures Insertable(s, ins) ==> Step(s, ins, InsertOne(s, ins).value)
  {
    hide Derives, ParseDocument, Navigate, Inserted, ClosingIndent, Present, CountKey, Writes, Indents;
    if Insertable(s, ins) {
      var root := ParseDocument(s, Strict).value;
      ParserIsExact(s, root, Strict);
      TargetDerives(s, root, ins.path, Strict);
      var n := Navigate(root, ins.path).value;
      IndentIsExact(s, n, Strict);
      Written(s, n, ins);
    }
  }

  /** Each text comes from the one before it by one insertion. */
  ghost predicate Steps(texts: seq<Text>, edits: seq<Insertion>) {
    && |texts| == |edits| + 1
    && forall k :: 0 <= k < |edits| ==> Insertable(texts[k], edits[k]) && Step(texts[k], edits[k], texts[k + 1])
  }

  /** Any number of insertions: the texts they go through. */
  lemma {:induction false} AllSteps(raw: Text, edits: seq<Insertion>) returns (texts: seq<Text>)
    requires InsertAll(raw, edits).Ok?
    ensures Steps(texts, edits) && texts[0] == raw && InsertAll(raw, edits) == Ok(texts[|edits|])
    decreases |edits|
  {
    hide Insertable, Step, InsertOne;
    if edits == [] {
      texts := [raw];
    } else {
      var before, ins := edits[..|edits| - 1], edits[|edits| - 1];
      texts := AllSteps(raw, before);
      InsertOneIsExact(texts[|before|], ins);
      OneMoreStep(texts, before, ins, InsertAll(raw, edits).value);
      assert before + [ins] == edits;
      texts := texts + [InsertAll(raw, edits).value];
    }
  }

  lemma OneMoreStep(texts: seq<Text>, edits: seq<Insertion>, ins: Insertion, s2: Text)
    requires Steps(texts, edits) && Insertable(texts[|edits|], ins) && Step(texts[|edits|], ins, s2)
    ensures Steps(texts + [s2], edits + [ins])
  {
    hide Insertable, Step;
  }
}
