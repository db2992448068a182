/** The token split, and the edit operations derived from an alignment of two texts. */
module ReviewEvidence {
  // Replaying the operations on either text gives exactly the other, whatever alignment was used.

  import opened Text

  /** What `\w` and `\s` match; no character is both. */
  datatype Classes = Classes(word: char -> bool, space: char -> bool)

  predicate IsJoiner(c: char) {
    c == '\'' || c == '\U{2019}' || c == '_' || c == '-'
  }

  datatype Token = Token(text: string, start: nat, end: nat)

  function RunEnd(s: string, i: nat, kind: char -> bool): (j: nat)
    requires i <= |s|
    ensures i <= j <= |s| && (i < |s| && kind(s[i]) ==> i < j)
    decreases |s| - i
  {
    if i < |s| && kind(s[i]) then RunEnd(s, i + 1, kind) else i
  }

  /** `\w+(?:['’_-]\w+)*` from a word character. */
  function WordEnd(s: string, i: nat, k: Classes): (j: nat)
    requires i < |s| && k.word(s[i])
    ensures i < j <= |s|
    decreases |s| - i
  {
    var j := RunEnd(s, i, k.word);
    if j + 1 < |s| && IsJoiner(s[j]) && k.word(s[j + 1]) then WordEnd(s, j + 1, k) else j
  }

  /** Word characters, and single joiners with a word character on either side. */
  predicate WordToken(s: string, i: nat, j: nat, k: Classes)
    requires i < j <= |s|
  {
    && k.word(s[i]) && k.word(s[j - 1])
    && forall m :: i < m < j - 1 && !k.word(s[m]) ==>
         s[m] in {'\'', '\U{2019}', '_', '-'} && k.word(s[m - 1]) && k.word(s[m + 1])
  }

  /** It could go on with a word character, or with a joiner and a word character. */
  predicate GoesOn(s: string, j: nat, k: Classes)
    requires j <= |s|
  {
    j < |s| && (k.word(s[j]) || (s[j] in {'\'', '\U{2019}', '_', '-'} && j + 1 < |s| && k.word(s[j + 1])))
  }

  /** A word token is such a stretch, as long as it can be. */
  lemma {:induction false} WordIsMaximal(s: string, i: nat, k: Classes)
    requires i < |s| && k.word(s[i])
    ensures WordToken(s, i, WordEnd(s, i, k), k) && !GoesOn(s, WordEnd(s, i, k), k)
    decreases |s| - i
  {
    var j := RunEnd(s, i, k.word);
    RunIsMaximal(s, i, k.word);
    if j + 1 < |s| && IsJoiner(s[j]) && k.word(s[j + 1]) {
      WordIsMaximal(s, j + 1, k);
    }
  }

  lemma {:induction false} RunIsMaximal(s: string, i: nat, kind: char -> bool)
    requires i <= |s|
    ensures forall m :: i <= m < RunEnd(s, i, kind) ==> kind(s[m])
    ensures RunEnd(s, i, kind) < |s| ==> !kind(s[RunEnd(s, i, kind)])
    decreases |s| - i
  {
    if i < |s| && kind(s[i]) {
      RunIsMaximal(s, i + 1, kind);
    }
  }

  function TokenEnd(s: string, i: nat, k: Classes): (j: nat)
    requires i < |s|
    ensures i < j <= |s|
  {
    if k.word(s[i]) then WordEnd(s, i, k)
    else if k.space(s[i]) then RunEnd(s, i, k.space)
    else i + 1
  }

  /** A word token, or a whole stretch of white space, or a single other character. */
  predicate IsToken(s: string, i: nat, j: nat, k: Classes)
    requires i < j <= |s|
  {
    if k.word(s[i]) then WordToken(s, i, j, k) && !GoesOn(s, j, k)
    else if k.space(s[i]) then (forall m :: i <= m < j ==> k.space(s[m])) && (j < |s| ==> !k.space(s[j]))
    else j == i + 1
  }

  /** Every token is one that the pattern matches, as long as it can be. */
  lemma {:induction false} TokensAreMaximal(s: string, i: nat, k: Classes)
    requires i <= |s|
    ensures forall token <- TokensFrom(s, i, k) ::
              token.start < token.end <= |s| && IsToken(s, token.start, token.end, k)
    decreases |s| - i
  {
    if i < |s| {
      var j := TokenEnd(s, i, k);
      if k.word(s[i]) {
        WordIsMaximal(s, i, k);
      } else {
        RunIsMaximal(s, i, k.space);
      }
      TokensAreMaximal(s, j, k);
    }
  }

  /** The tokens from `i` on. */
  function TokensFrom(s: string, i: nat, k: Classes): seq<Token>
    requires i <= |s|
    decreases |s| - i
  {
    if i == |s| then []
    else var j := TokenEnd(s, i, k); [Token(s[i..j], i, j)] + TokensFrom(s, j, k)
  }

  /** `_review_tokens`. */
  function ReviewTokens(s: string, k: Classes): seq<Token> {
    TokensFrom(s, 0, k)
  }

  /** Consecutive non-empty stretches of `s` from `i` to the end. */
  predicate Partition(tokens: seq<Token>, s: string, i: nat) {
    if tokens == [] then i == |s|
    else
      && tokens[0].start == i < tokens[0].end <= |s| && tokens[0].text == s[i..tokens[0].end]
      && Partition(tokens[1..], s, tokens[0].end)
  }

  /** The tokens are the text, cut up: nothing lost, nothing twice. */
  lemma {:induction false} TokensPartition(s: string, i: nat, k: Classes)
    requires i <= |s|
    ensures Partition(TokensFrom(s, i, k), s, i)
    decreases |s| - i
  {
    hide TokenEnd;
    if i < |s| {
      var j := TokenEnd(s, i, k);
      TokensPartition(s, j, k);
      assert TokensFrom(s, i, k)[1..] == TokensFrom(s, j, k);
    }
  }

  // ---- Offsets of token boundaries ------------------------------------------------------------------------

  /** Where token `n` begins, or the end of the text. */
  function Offset(tokens: seq<Token>, n: nat, s: string): nat
    requires n <= |tokens|
  {
    if n < |tokens| then tokens[n].start else |s|
  }

  function Joined(tokens: seq<Token>): string {
    if tokens == [] then "" else tokens[0].text + Joined(tokens[1..])
  }

  lemma {:induction false} Boundary(tokens: seq<Token>, s: string, i: nat, n: nat)
    requires Partition(tokens, s, i) && n <= |tokens|
    ensures i <= Offset(tokens, n, s) <= |s| && (n == 0 ==> Offset(tokens, n, s) == i)
    ensures n > 0 ==> tokens[n - 1].end == Offset(tokens, n, s)
    decreases |tokens|
  {
    if n > 0 {
      Boundary(tokens[1..], s, tokens[0].end, n - 1);
      if n == 1 && |tokens| > 1 {
        assert tokens[1..][0].start == tokens[0].end;
      }
    }
  }

  /** The tokens between two boundaries are the text between their offsets. */
  lemma {:induction false} BetweenBoundaries(tokens: seq<Token>, s: string, i: nat, m: nat, n: nat)
    requires Partition(tokens, s, i) && m <= n <= |tokens|
    ensures Offset(tokens, m, s) <= Offset(tokens, n, s) <= |s|
    ensures Joined(tokens[m..n]) == s[Offset(tokens, m, s)..Offset(tokens, n, s)]
    decreases |tokens|, n
  {
    if m > 0 {
      BetweenBoundaries(tokens[1..], s, tokens[0].end, m - 1, n - 1);
      assert tokens[1..][m - 1..n - 1] == tokens[m..n];
    } else if n > 0 {
      BetweenBoundaries(tokens[1..], s, tokens[0].end, 0, n - 1);
      Boundary(tokens, s, i, n);
      Boundary(tokens[1..], s, tokens[0].end, 0);
      Boundary(tokens[1..], s, tokens[0].end, n - 1);
      assert tokens[0..n][1..] == tokens[1..][0..n - 1];
      var a, b, c := i, tokens[0].end, Offset(tokens, n, s);
      assert s[a..c] == s[a..b] + s[b..c];
    } else {
      Boundary(tokens, s, i, 0);
      assert tokens[0..0] == [];
    }
  }

  // ---- Alignments -------------------------------------------------------------------------------------------

  datatype Opcode = Opcode(equal: bool, i1: nat, i2: nat, j1: nat, j2: nat)

  function Texts(tokens: seq<Token>): seq<string> {
    seq(|tokens|, n requires 0 <= n < |tokens| => tokens[n].text)
  }

  /** Consecutive from (0, 0): what `get_opcodes` promises of every prefix. */
  predicate Aligned(codes: seq<Opcode>, a: seq<string>, b: seq<string>) {
    if codes == [] then true
    else
      var before, last := codes[..|codes| - 1], codes[|codes| - 1];
      && Aligned(before, a, b) && last.i1 == EndOf(before).0 && last.j1 == EndOf(before).1
      && last.i1 <= last.i2 <= |a| && last.j1 <= last.j2 <= |b|
      && (last.equal ==> a[last.i1..last.i2] == b[last.j1..last.j2])
  }

  function EndOf(codes: seq<Opcode>): (nat, nat) {
    if codes == [] then (0, 0) else (codes[|codes| - 1].i2, codes[|codes| - 1].j2)
  }

  predicate Alignment(codes: seq<Opcode>, a: seq<string>, b: seq<string>) {
    Aligned(codes, a, b) && EndOf(codes) == (|a|, |b|)
  }

  /** Replacing everything, and keeping everything, are alignments. */
  lemma TrivialAlignments(a: seq<string>, b: seq<string>)
    ensures Alignment([Opcode(false, 0, |a|, 0, |b|)], a, b) && Alignment([Opcode(true, 0, |a|, 0, |a|)], a, a)
  {
    assert [Opcode(false, 0, |a|, 0, |b|)][..0] == [] && [Opcode(true, 0, |a|, 0, |a|)][..0] == [];
  }

  // ---- Operations and their replay ----------------------------------------------------------------------------

  datatype Kind = Replace | Delete | Insert | Structural(op: string)

  datatype Operation =
    Operation(kind: Kind, baseStart: nat, baseEnd: nat, proposedStart: nat, proposedEnd: nat, oldText: string,
        newText: string)

  /** The same operation seen from the other text. */
  function Reversed(o: Operation): Operation {
    Operation(o.kind, o.proposedStart, o.proposedEnd, o.baseStart, o.baseEnd, o.newText, o.oldText)
  }

  function AllReversed(ops: seq<Operation>): seq<Operation> {
    seq(|ops|, n requires 0 <= n < |ops| => Reversed(ops[n]))
  }

  function LastEnd(ops: seq<Operation>): nat {
    if ops == [] then 0 else ops[|ops| - 1].baseEnd
  }

  /** In order, without overlap, and each quoting what stands at its base range. */
  predicate Quotes(ops: seq<Operation>, s: string) {
    if ops == [] then true
    else
      var before, last := ops[..|ops| - 1], ops[|ops| - 1];
      && Quotes(before, s) && LastEnd(before) <= last.baseStart <= last.baseEnd <= |s|
      && last.oldText == s[last.baseStart..last.baseEnd]
  }

  /** The rewritten text up to the end of the last operation. */
  function Built(ops: seq<Operation>, s: string): string
    requires Quotes(ops, s)
  {
    if ops == [] then ""
    else
      var before, last := ops[..|ops| - 1], ops[|ops| - 1];
      Built(before, s) + s[LastEnd(before)..last.baseStart] + last.newText
  }

  lemma LastEndInside(ops: seq<Operation>, s: string)
    requires Quotes(ops, s)
    ensures LastEnd(ops) <= |s|
  {
  }

  /** `s` with each operation's new text at its base range. */
  function Replayed(ops: seq<Operation>, s: string): string
    requires Quotes(ops, s)
  {
    LastEndInside(ops, s);
    Built(ops, s) + s[LastEnd(ops)..]
  }

  /** The operations turn `s` into `t` and, read backwards, `t` into `s`. */
  predicate Lossless(ops: seq<Operation>, s: string, t: string) {
    && Quotes(ops, s) && Replayed(ops, s) == t
    && Quotes(AllReversed(ops), t) && Replayed(AllReversed(ops), t) == s
  }

  /** The operations so far account for `s` up to `x` and for `t` up to `y`. */
  predicate Reaches(ops: seq<Operation>, s: string, x: nat, t: string, y: nat) {
    && Quotes(ops, s) && LastEnd(ops) <= x <= |s| && y <= |t| && Built(ops, s) + s[LastEnd(ops)..x] == t[..y]
  }

  lemma Unchanged(ops: seq<Operation>, s: string, x: nat, x2: nat, t: string, y: nat, y2: nat)
    requires Reaches(ops, s, x, t, y) && x <= x2 <= |s| && y <= y2 <= |t| && s[x..x2] == t[y..y2]
    ensures Reaches(ops, s, x2, t, y2)
  {
    assert s[LastEnd(ops)..x2] == s[LastEnd(ops)..x] + s[x..x2];
    assert t[..y2] == t[..y] + t[y..y2];
  }

  lemma Changed(ops: seq<Operation>, s: string, x: nat, t: string, y: nat, o: Operation)
    requires Reaches(ops, s, x, t, y) && o.baseStart == x <= o.baseEnd <= |s| && o.oldText == s[x..o.baseEnd]
    requires y <= o.proposedEnd <= |t| && o.newText == t[y..o.proposedEnd]
    ensures Reaches(ops + [o], s, o.baseEnd, t, o.proposedEnd)
  {
    assert (ops + [o])[..|ops|] == ops;
    assert t[..o.proposedEnd] == t[..y] + t[y..o.proposedEnd];
    assert s[o.baseEnd..o.baseEnd] == "";
  }

  lemma ReachedTheEnd(ops: seq<Operation>, s: string, t: string)
    requires Reaches(ops, s, |s|, t, |t|) && Reaches(AllReversed(ops), t, |t|, s, |s|)
    ensures Lossless(ops, s, t)
  {
    assert t[..|t|] == t && s[..|s|] == s;
    assert s[LastEnd(ops)..|s|] == s[LastEnd(ops)..];
    assert t[LastEnd(AllReversed(ops))..|t|] == t[LastEnd(AllReversed(ops))..];
  }

  // ---- `_atomic_review_operations` --------------------------------------------------------------------------

  const MAX_REVIEW_TOKENS := 1024
  const MAX_REVIEW_MATRIX_CELLS := 250000

  function KindOf(oldText: string, newText: string): Kind {
    if oldText != "" && newText != "" then Replace else if oldText != "" then Delete else Insert
  }

  function Whole(kind: Kind, s: string, t: string): Operation {
    Operation(kind, 0, |s|, 0, |t|, s, t)
  }

  /** One operation over both whole texts. */
  lemma WholeIsLossless(kind: Kind, s: string, t: string)
    ensures Lossless([Whole(kind, s, t)], s, t)
  {
    var o := Whole(kind, s, t);
    assert AllReversed([o]) == [Reversed(o)] && AllReversed([]) == [];
    assert Reaches([], s, 0, t, 0) && Reaches([], t, 0, s, 0);
    Changed([], s, 0, t, 0, o);
    Changed([], t, 0, s, 0, Reversed(o));
    ReachedTheEnd([o], s, t);
  }

  /** `_whole_span_review_operation`. */
  function WholeSpanReviewOperation(s: string, t: string): (ops: seq<Operation>)
    ensures Lossless(ops, s, t)
    ensures if s == t then ops == []
            else |ops| == 1 && ops[0] == Operation(ops[0].kind, 0, |s|, 0, |t|, s, t) && SaysKind(ops[0])
  {
    if s == t then
      assert AllReversed([]) == [];
      []
    else
      WholeIsLossless(KindOf(s, t), s, t);
      [Whole(KindOf(s, t), s, t)]
  }

  /** The operation that takes one stretch of `s` to one stretch of `t`. */
  function Quoting(i: nat, i2: nat, j: nat, j2: nat, s: string, t: string): Operation
    requires i <= i2 <= |s| && j <= j2 <= |t|
  {
    Operation(KindOf(s[i..i2], t[j..j2]), i, i2, j, j2, s[i..i2], t[j..j2])
  }

  /** The operation of one unequal opcode. */
  function OperationOf(c: Opcode, before: seq<Token>, after: seq<Token>, s: string, t: string): Operation
    requires c.i1 <= c.i2 <= |before| && c.j1 <= c.j2 <= |after|
  {
    var oldText, newText := Joined(before[c.i1..c.i2]), Joined(after[c.j1..c.j2]);
    Operation(KindOf(oldText, newText),
              Offset(before, c.i1, s), RangeEnd(before, c.i1, c.i2, s),
              Offset(after, c.j1, t), RangeEnd(after, c.j1, c.j2, t), oldText, newText)
  }

  /** Where the last token of a range ends; an empty range ends where it starts. */
  function RangeEnd(tokens: seq<Token>, m: nat, n: nat, s: string): nat
    requires m <= n <= |tokens|
  {
    if n > m then tokens[n - 1].end else Offset(tokens, m, s)
  }

  lemma RangeSpan(tokens: seq<Token>, s: string, m: nat, n: nat)
    requires m <= n <= |tokens| && Partition(tokens, s, 0)
    ensures Offset(tokens, m, s) <= Offset(tokens, n, s) <= |s|
    ensures RangeEnd(tokens, m, n, s) == Offset(tokens, n, s)
    ensures Joined(tokens[m..n]) == s[Offset(tokens, m, s)..Offset(tokens, n, s)]
  {
    hide Partition, Joined, Offset;
    Boundary(tokens, s, 0, n);
    BetweenBoundaries(tokens, s, 0, m, n);
  }

  lemma OperationSpans(c: Opcode, before: seq<Token>, after: seq<Token>, s: string, t: string)
    requires c.i1 <= c.i2 <= |before| && c.j1 <= c.j2 <= |after| && Partition(before, s, 0) && Partition(after, t, 0)
    ensures Offset(before, c.i1, s) <= Offset(before, c.i2, s) <= |s|
    ensures Offset(after, c.j1, t) <= Offset(after, c.j2, t) <= |t|
    ensures OperationOf(c, before, after, s, t) ==
            Quoting(Offset(before, c.i1, s), Offset(before, c.i2, s), Offset(after, c.j1, t), Offset(after, c.j2, t),
                s, t)
  {
    hide Partition, Joined, Offset, KindOf, RangeEnd;
    RangeSpan(before, s, c.i1, c.i2);
    RangeSpan(after, t, c.j1, c.j2);
  }

  lemma {:induction false} SameTexts(x: seq<Token>, y: seq<Token>)
    requires Texts(x) == Texts(y)
    ensures Joined(x) == Joined(y)
    decreases |x|
  {
    assert |Texts(x)| == |x| && |Texts(y)| == |y|;
    if x != [] {
      assert Texts(x)[0] == x[0].text && Texts(y)[0] == y[0].text;
      assert Texts(x[1..]) == Texts(x)[1..] && Texts(y[1..]) == Texts(y)[1..];
      SameTexts(x[1..], y[1..]);
    }
  }

  lemma TextsOfSlice(tokens: seq<Token>, m: nat, n: nat)
    requires m <= n <= |tokens|
    ensures Texts(tokens[m..n]) == Texts(tokens)[m..n]
  {
    var x, y := Texts(tokens[m..n]), Texts(tokens)[m..n];
    assert |x| == |y|;
    forall k | 0 <= k < |x| ensures x[k] == y[k] {
      assert x[k] == tokens[m..n][k].text == tokens[m + k].text;
    }
  }

  lemma EqualStretch(c: Opcode, before: seq<Token>, after: seq<Token>, s: string, t: string)
    requires c.i1 <= c.i2 <= |before| && c.j1 <= c.j2 <= |after| && Partition(before, s, 0) && Partition(after, t, 0)
    requires Texts(before)[c.i1..c.i2] == Texts(after)[c.j1..c.j2]
    ensures Offset(before, c.i1, s) <= Offset(before, c.i2, s) <= |s|
    ensures Offset(after, c.j1, t) <= Offset(after, c.j2, t) <= |t|
    ensures s[Offset(before, c.i1, s)..Offset(before, c.i2, s)] == t[Offset(after, c.j1, t)..Offset(after, c.j2, t)]
  {
    hide Partition, Joined, Texts, Offset;
    BetweenBoundaries(before, s, 0, c.i1, c.i2);
    BetweenBoundaries(after, t, 0, c.j1, c.j2);
    TextsOfSlice(before, c.i1, c.i2);
    TextsOfSlice(after, c.j1, c.j2);
    SameTexts(before[c.i1..c.i2], after[c.j1..c.j2]);
  }

  lemma {:induction false} PrefixAligned(codes: seq<Opcode>, a: seq<string>, b: seq<string>, k: nat)
    requires Aligned(codes, a, b) && k <= |codes|
    ensures Aligned(codes[..k], a, b)
    decreases |codes|
  {
    if k < |codes| {
      assert codes[..|codes| - 1][..k] == codes[..k];
      PrefixAligned(codes[..|codes| - 1], a, b, k);
    } else {
      assert codes[..k] == codes;
    }
  }

  lemma CodeInside(codes: seq<Opcode>, a: seq<string>, b: seq<string>, k: nat)
    requires Aligned(codes, a, b) && k < |codes|
    ensures var c := codes[k];
            && (c.i1, c.j1) == EndOf(codes[..k]) && c.i1 <= c.i2 <= |a| && c.j1 <= c.j2 <= |b|
            && (c.equal ==> a[c.i1..c.i2] == b[c.j1..c.j2])
  {
    PrefixAligned(codes, a, b, k + 1);
    assert codes[..k + 1][..k] == codes[..k];
  }

  // ---- Which operations there are -------------------------------------------------------------------------

  /** Whether there is text before and after says what is done. */
  predicate SaysKind(o: Operation) {
    && (o.kind == Replace <==> o.oldText != "" && o.newText != "")
    && (o.kind == Delete <==> o.oldText != "" && o.newText == "")
    && (o.kind == Insert <==> o.oldText == "")
  }

  /** From the start of the first token of a range to the end of its last one; where it is empty, nothing. */
  predicate Spans(tokens: seq<Token>, m: nat, n: nat, s: string, start: nat, end: nat)
    requires m <= n <= |tokens|
  {
    && start == (if m < |tokens| then tokens[m].start else |s|)
    && end == if m < n then tokens[n - 1].end else start
  }

  /** The operation reports the opcode. */
  predicate Reports(o: Operation, c: Opcode, before: seq<Token>, after: seq<Token>, s: string, t: string) {
    && c.i1 <= c.i2 <= |before| && c.j1 <= c.j2 <= |after|
    && Spans(before, c.i1, c.i2, s, o.baseStart, o.baseEnd) && o.baseStart <= o.baseEnd <= |s|
    && Spans(after, c.j1, c.j2, t, o.proposedStart, o.proposedEnd) && o.proposedStart <= o.proposedEnd <= |t|
    && o.oldText == s[o.baseStart..o.baseEnd] && o.newText == t[o.proposedStart..o.proposedEnd] && SaysKind(o)
  }

  /** One operation for each opcode that is not `equal`, in their order; the `m`-th one for opcode `at[m]`. */
  predicate OnePerChange(ops: seq<Operation>, at: seq<nat>, codes: seq<Opcode>, before: seq<Token>, after: seq<Token>,
                         s: string, t: string)
  {
    && |at| == |ops| && (forall m, n :: 0 <= m < n < |at| ==> at[m] < at[n])
    && (forall n :: 0 <= n < |codes| ==> (n in at <==> !codes[n].equal))
    && forall m :: 0 <= m < |at| ==> at[m] < |codes| && Reports(ops[m], codes[at[m]], before, after, s, t)
  }

  lemma OneMoreCode(ops: seq<Operation>, at: seq<nat>, codes: seq<Opcode>, c: Opcode, before: seq<Token>,
                    after: seq<Token>, s: string, t: string)
    requires OnePerChange(ops, at, codes, before, after, s, t)
    ensures c.equal ==> OnePerChange(ops, at, codes + [c], before, after, s, t)
    ensures forall o :: !c.equal && Reports(o, c, before, after, s, t) ==>
              OnePerChange(ops + [o], at + [|codes|], codes + [c], before, after, s, t)
  {
    hide Reports;
    var more, at2 := codes + [c], at + [|codes|];
    assert |codes| !in at;
    forall m | 0 <= m < |at| ensures more[at[m]] == codes[at[m]] {
    }
    forall n | 0 <= n < |more| ensures !c.equal ==> (n in at2 <==> !more[n].equal) {
      assert n in at2 <==> n in at || n == |codes|;
    }
  }

  lemma Reported(c: Opcode, before: seq<Token>, after: seq<Token>, s: string, t: string)
    requires c.i1 <= c.i2 <= |before| && c.j1 <= c.j2 <= |after| && Partition(before, s, 0) && Partition(after, t, 0)
    ensures Reports(OperationOf(c, before, after, s, t), c, before, after, s, t)
  {
    hide Partition, Joined;
    RangeSpan(before, s, c.i1, c.i2);
    RangeSpan(after, t, c.j1, c.j2);
  }

  /** More than 1024 tokens on a side, or more than 250000 pairs. */
  predicate TooLong(before: nat, after: nat) {
    before > 1024 || after > 1024 || before * after > 250000
  }

  /**
   The evidence for one patch: whatever the alignment, and whichever way it is taken, the operations
   rebuild the proposed text from the original and the original from the proposed.  A structural edit is one operation
   over everything, and so is a text that is too long to be aligned, if it changes at all; otherwise there is one
   operation for each change.
   */
  method AtomicReviewOperations(s: string, t: string, op: Option<string>, codes: seq<Opcode>, k: Classes)
    returns (ops: seq<Operation>, ghost at: seq<nat>)
    requires Alignment(codes, Texts(ReviewTokens(s, k)), Texts(ReviewTokens(t, k)))
    ensures Lossless(ops, s, t)
    ensures op.Some? ==> ops == [Operation(Structural(op.value), 0, |s|, 0, |t|, s, t)]
    ensures op.None? && TooLong(|ReviewTokens(s, k)|, |ReviewTokens(t, k)|) ==>
              if s == t then ops == []
              else |ops| == 1 && ops[0] == Operation(ops[0].kind, 0, |s|, 0, |t|, s, t) && SaysKind(ops[0])
    ensures op.None? && !TooLong(|ReviewTokens(s, k)|, |ReviewTokens(t, k)|) ==>
              OnePerChange(ops, at, codes, ReviewTokens(s, k), ReviewTokens(t, k), s, t)
  {
    hide Aligned, Partition, Joined, OperationOf, Quotes, Built, Lossless, Reaches, TokensFrom, OnePerChange, Reports;
    at := [];
    if op.Some? {
      WholeIsLossless(Structural(op.value), s, t);
      return [Whole(Structural(op.value), s, t)], at;
    }
    var oldTokens, newTokens := ReviewTokens(s, k), ReviewTokens(t, k);
    TokensPartition(s, 0, k);
    TokensPartition(t, 0, k);
    if |oldTokens| > MAX_REVIEW_TOKENS || |newTokens| > MAX_REVIEW_TOKENS ||
       |oldTokens| * |newTokens| > MAX_REVIEW_MATRIX_CELLS {
      return WholeSpanReviewOperation(s, t), at;
    }
    ops, at := AlignedOperations(s, t, codes, oldTokens, newTokens);
  }

  /** The loop over the opcodes. */
  method AlignedOperations(s: string, t: string, codes: seq<Opcode>, oldTokens: seq<Token>, newTokens: seq<Token>)
    returns (ops: seq<Operation>, ghost at: seq<nat>)
    requires Partition(oldTokens, s, 0) && Partition(newTokens, t, 0)
    requires Alignment(codes, Texts(oldTokens), Texts(newTokens))
    ensures Lossless(ops, s, t) && OnePerChange(ops, at, codes, oldTokens, newTokens, s, t)
  {
    hide Aligned, Partition, Joined, OperationOf, Quotes, Built, Lossless, Reaches, OnePerChange, Reports, Offset;
    ops, at := [], [];
    Start(oldTokens, newTokens, s, t);
    NoChangeYet(oldTokens, newTokens, s, t);
    var n := 0;
    while n < |codes|
      invariant n <= |codes| && OnePerChange(ops, at, codes[..n], oldTokens, newTokens, s, t)
      invariant EndOf(codes[..n]).0 <= |oldTokens| && EndOf(codes[..n]).1 <= |newTokens|
      invariant Reaches(ops, s, Offset(oldTokens, EndOf(codes[..n]).0, s), t, Offset(newTokens, EndOf(codes[..n]).1, t))
      invariant Reaches(AllReversed(ops), t, Offset(newTokens, EndOf(codes[..n]).1, t), s,
                Offset(oldTokens, EndOf(codes[..n]).0, s))
    {
      var c := codes[n];
      CodeInside(codes, Texts(oldTokens), Texts(newTokens), n);
      assert codes[..n + 1][|codes[..n + 1]| - 1] == c;
      assert codes[..n + 1] == codes[..n] + [c];
      OneMoreCode(ops, at, codes[..n], c, oldTokens, newTokens, s, t);
      var x, y := Offset(oldTokens, c.i1, s), Offset(newTokens, c.j1, t);
      if c.equal {
        EqualStretch(c, oldTokens, newTokens, s, t);
        Unchanged(ops, s, x, Offset(oldTokens, c.i2, s), t, y, Offset(newTokens, c.j2, t));
        Unchanged(AllReversed(ops), t, y, Offset(newTokens, c.j2, t), s, x, Offset(oldTokens, c.i2, s));
      } else {
        var o := OperationOf(c, oldTokens, newTokens, s, t);
        OperationSpans(c, oldTokens, newTokens, s, t);
        Changed(ops, s, x, t, y, o);
        Changed(AllReversed(ops), t, y, s, x, Reversed(o));
        assert AllReversed(ops + [o]) == AllReversed(ops) + [Reversed(o)];
        Reported(c, oldTokens, newTokens, s, t);
        ops, at := ops + [o], at + [n];
      }
      n := n + 1;
    }
    assert codes[..|codes|] == codes;
    ReachedTheEnd(ops, s, t);
  }

  lemma NoChangeYet(before: seq<Token>, after: seq<Token>, s: string, t: string)
    ensures OnePerChange([], [], [], before, after, s, t)
  {
  }

  lemma Start(before: seq<Token>, after: seq<Token>, s: string, t: string)
    requires Partition(before, s, 0) && Partition(after, t, 0)
    ensures Offset(before, 0, s) == 0 && Offset(before, |before|, s) == |s|
    ensures Offset(after, 0, t) == 0 && Offset(after, |after|, t) == |t|
    ensures Reaches([], s, 0, t, 0) && Reaches(AllReversed([]), t, 0, s, 0)
  {
    Boundary(before, s, 0, 0);
    Boundary(after, t, 0, 0);
    assert AllReversed([]) == [];
  }
}
