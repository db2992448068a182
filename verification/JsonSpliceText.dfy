/** The text that `splice_scalars` returns, piece by piece. */
module JsonSpliceText {
  import opened Text
  import opened JsonGrammar
  import opened JsonPaths
  import opened JsonValues
  import opened JsonSplice
  import opened JsonSpliceGate

  function Flat(pieces: seq<Text>): Text {
    if pieces == [] then [] else pieces[0] + Flat(pieces[1..])
  }

  /** In order, none empty, and without overlap. */
  predicate InOrder(raw: Text, spans: seq<Span>) {
    && (forall k :: 0 <= k < |spans| ==> spans[k].start < spans[k].end <= |raw|)
    && forall j, k :: 0 <= j < k < |spans| ==> spans[j].end <= spans[k].start
  }

  /** What stands before the span number `k`, or after the last one, back to the span before it. */
  function Gap(raw: Text, spans: seq<Span>, from: nat, k: nat): Text
    requires k <= |spans|
  {
    var a, b := if k == 0 then from else spans[k - 1].end, if k == |spans| then |raw| else spans[k].start;
    if a <= b <= |raw| then raw[a..b] else []
  }

  /** Gaps and new texts, alternately. */
  function Pieces(raw: Text, spans: seq<Span>, from: nat): seq<Text> {
    seq(2 * |spans| + 1, k requires 0 <= k <= 2 * |spans| => Piece(raw, spans, from, k))
  }

  function Piece(raw: Text, spans: seq<Span>, from: nat, k: nat): Text
    requires k <= 2 * |spans|
  {
    if k % 2 == 1 then spans[k / 2].text else Gap(raw, spans, from, k / 2)
  }

  /** Each changing edit replaces the token of its leaf by what `json.dumps` writes, and nothing else does. */
  ghost predicate Cuts(root: Node, edits: seq<PathEdit>, spans: seq<Span>, ascii: bool)
    requires forall k :: 0 <= k < |edits| ==> Targeted(root, edits[k])
  {
    forall x :: x in spans <==> exists k :: 0 <= k < |edits| && CutsAt(root, edits, k, x, ascii)
  }

  /** The text with those pieces put together. */
  ghost predicate Edits(raw: Text, root: Node, edits: seq<PathEdit>, ascii: bool, s: Text)
    requires forall k :: 0 <= k < |edits| ==> Targeted(root, edits[k])
  {
    exists spans :: InOrder(raw, spans) && Cuts(root, edits, spans, ascii) && s == Flat(Pieces(raw, spans, 0))
  }

  lemma {:induction false} PlacedIsInOrder(raw: Text, spans: seq<Span>, from: nat)
    requires Placed(raw, spans, from)
    ensures InOrder(raw, spans) && from <= |raw| && forall k :: 0 <= k < |spans| ==> from <= spans[k].start
    decreases |spans|
  {
    if spans != [] {
      PlacedIsInOrder(raw, spans[1..], spans[0].end);
      assert forall k :: 1 <= k < |spans| ==> spans[k] == spans[1..][k - 1];
    }
  }

  lemma GapShift(raw: Text, spans: seq<Span>, from: nat, k: nat)
    requires 0 < k <= |spans|
    ensures Gap(raw, spans, from, k) == Gap(raw, spans[1..], spans[0].end, k - 1)
  {
  }

  lemma PieceShift(raw: Text, spans: seq<Span>, from: nat, k: nat)
    requires spans != [] && k <= 2 * (|spans| - 1)
    ensures Piece(raw, spans, from, k + 2) == Piece(raw, spans[1..], spans[0].end, k)
  {
    hide Gap;
    assert (k + 2) / 2 == k / 2 + 1 && (k + 2) % 2 == k % 2;
    if k % 2 == 0 {
      GapShift(raw, spans, from, k / 2 + 1);
    }
  }

  lemma FirstPieces(raw: Text, spans: seq<Span>, from: nat)
    requires spans != [] && from <= spans[0].start <= |raw|
    ensures Pieces(raw, spans, from) ==
            [raw[from..spans[0].start], spans[0].text] + Pieces(raw, spans[1..], spans[0].end)
  {
    var x, y := Pieces(raw, spans, from), Pieces(raw, spans[1..], spans[0].end);
    assert x[0] == raw[from..spans[0].start] && x[1] == spans[0].text by {
      FirstGap(raw, spans, from);
    }
    hide Piece;
    forall k | 0 <= k < |y| ensures x[k + 2] == y[k] {
      PieceShift(raw, spans, from, k);
    }
    assert x == [x[0], x[1]] + y;
  }

  lemma FirstGap(raw: Text, spans: seq<Span>, from: nat)
    requires from <= (if spans == [] then |raw| else spans[0].start) <= |raw|
    ensures Gap(raw, spans, from, 0) == raw[from..if spans == [] then |raw| else spans[0].start]
  {
  }

  lemma {:induction false} WovenIsFlat(raw: Text, spans: seq<Span>, from: nat)
    requires Placed(raw, spans, from)
    ensures InOrder(raw, spans)
    ensures Weave(raw, from, spans) == Flat(Pieces(raw, spans, from))
    decreases |spans|
  {
    PlacedIsInOrder(raw, spans, from);
    if spans == [] {
      OnePiece(raw[from..]);
      FirstGap(raw, spans, from);
      assert raw[from..|raw|] == raw[from..];
      assert Pieces(raw, spans, from) == [raw[from..]];
    } else {
      FirstPieces(raw, spans, from);
      WovenIsFlat(raw, spans[1..], spans[0].end);
      TwoPieces(raw[from..spans[0].start], spans[0].text, Pieces(raw, spans[1..], spans[0].end));
    }
  }

  lemma OnePiece(t: Text)
    ensures Flat([t]) == t
  {
    assert [t][1..] == [] && t + [] == t;
  }

  lemma TwoPieces(a: Text, b: Text, rest: seq<Text>)
    ensures Flat([a, b] + rest) == a + b + Flat(rest)
  {
    assert ([a, b] + rest)[1..] == [b] + rest && ([b] + rest)[1..] == rest;
    assert a + (b + Flat(rest)) == a + b + Flat(rest);
  }

  /** The span of a changing edit. */
  predicate CutsAt(root: Node, edits: seq<PathEdit>, k: nat, x: Span, ascii: bool)
    requires k < |edits| && Targeted(root, edits[k])
  {
    Target(root, edits[k]).value != PyValue(edits[k].value) &&
    x == Span(Target(root, edits[k]).start, Target(root, edits[k]).end, Dump(edits[k].value, ascii))
  }

  /** What the plan holds. */
  lemma {:induction false} PlanIsCuts(root: Node, edits: seq<PathEdit>, ascii: bool)
    requires forall k :: 0 <= k < |edits| ==> Targeted(root, edits[k])
    requires Plan(root, edits, ascii).Ok?
    ensures Cuts(root, edits, Plan(root, edits, ascii).value, ascii)
    decreases |edits|
  {
    hide Navigate, Dump, PlanOne, CutsAt;
    if edits != [] {
      var before, last := edits[..|edits| - 1], edits[|edits| - 1];
      PlanIsCuts(root, before, ascii);
      OneCut(root, last, ascii);
      var spans, more := Plan(root, before, ascii).value, PlanOne(root, last, ascii).value;
      forall k, x: Span | 0 <= k < |before|
        ensures CutsAt(root, edits, k, x, ascii) <==> CutsAt(root, before, k, x, ascii)
      {
        SameCut(root, before, edits, k, x, ascii);
      }
      LastCut(root, edits, more, ascii);
    }
  }

  lemma SameCut(root: Node, before: seq<PathEdit>, edits: seq<PathEdit>, k: nat, x: Span, ascii: bool)
    requires k < |before| && k < |edits| && before[k] == edits[k] && Targeted(root, edits[k])
    ensures CutsAt(root, edits, k, x, ascii) <==> CutsAt(root, before, k, x, ascii)
  {
  }

  lemma LastCut(root: Node, edits: seq<PathEdit>, more: seq<Span>, ascii: bool)
    requires edits != [] && Targeted(root, edits[|edits| - 1])
    requires PlanOne(root, edits[|edits| - 1], ascii) == Ok(more)
    ensures forall x :: x in more <==> CutsAt(root, edits, |edits| - 1, x, ascii)
  {
    hide Navigate, Dump;
    OneCut(root, edits[|edits| - 1], ascii);
  }

  lemma OneCut(root: Node, e: PathEdit, ascii: bool)
    requires Targeted(root, e)
    ensures PlanOne(root, e, ascii) ==
            Ok(if Target(root, e).value == PyValue(e.value) then []
               else [Span(Target(root, e).start, Target(root, e).end, Dump(e.value, ascii))])
  {
  }

  /** The spliced text is made of the pieces that the edits say. */
  lemma SplicedIsEdits(raw: Text, root: Node, edits: seq<PathEdit>, ascii: bool)
    requires Addressed(root, edits) && Plan(root, edits, ascii).Ok?
    requires Placed(raw, Sorted(Plan(root, edits, ascii).value), 0)
    ensures Edits(raw, root, edits, ascii, Weave(raw, 0, Sorted(Plan(root, edits, ascii).value)))
  {
    hide Navigate, Dump, Plan, Sorted, Flat, Pieces, Weave, Placed, Targeted, InOrder;
    var plan := Plan(root, edits, ascii).value;
    PlanIsCuts(root, edits, ascii);
    SortedMembers(plan);
    WovenIsFlat(raw, Sorted(plan), 0);
    assert Cuts(root, edits, Sorted(plan), ascii);
  }
}
