/** Markdown block segmentation: the renderer's line loop, and the partition of the lines it induces. */
module MarkdownBlocks {

  /** A stripped line, by what the renderer's tests say about it; an empty one matches none of them. */
  datatype Line =
    | Blank
    | Text(rule: bool, heading: bool, pipe: bool, separator: bool, quote: bool, bullet: bool, numbered: bool)

  datatype Tag = Paragraph | Heading | Quote | Item

  /** A recorded span: the first and last line of an emitted block. */
  datatype Span = Span(tag: Tag, start: nat, end: nat)

  datatype Segment = Block(span: Span) | Rule(line: nat) | Table(start: nat, end: nat)

  function First(s: Segment): nat {
    match s case Block(span) => span.start case Rule(line) => line case Table(start, _) => start
  }

  function Last(s: Segment): nat {
    match s case Block(span) => span.end case Rule(line) => line case Table(_, end) => end
  }

  // ---- The reference segmentation ---------------------------------------------------------------------

  datatype Kind = BlankLine | RuleLine | HeadingLine | TableStart | QuoteLine | BulletLine | NumberedLine | PlainLine

  /** Which branch the loop takes at line `i`. */
  function KindAt(lines: seq<Line>, i: nat): Kind
    requires i < |lines|
  {
    match lines[i]
    case Blank => BlankLine
    case Text(rule, heading, pipe, _, quote, bullet, numbered) =>
      if rule then RuleLine
      else if heading then HeadingLine
      else if pipe && i + 1 < |lines| && lines[i + 1].Text? && lines[i + 1].separator then TableStart
      else if quote then QuoteLine
      else if bullet then BulletLine
      else if numbered then NumberedLine
      else PlainLine
  }

  datatype Run = Pipes | Quotes | Bullets | Numbers | Plains

  predicate InRun(lines: seq<Line>, i: nat, run: Run)
    requires i < |lines|
  {
    if run.Plains? then KindAt(lines, i) == PlainLine
    else
      match lines[i]
      case Blank => false
      case Text(_, _, pipe, _, quote, bullet, numbered) =>
        if run.Pipes? then pipe else if run.Quotes? then quote else if run.Bullets? then bullet else numbered
  }

  function RunEnd(lines: seq<Line>, i: nat, run: Run): (j: nat)
    requires i <= |lines|
    ensures i <= j <= |lines|
    ensures forall k :: i <= k < j ==> InRun(lines, k, run)
    ensures j < |lines| ==> !InRun(lines, j, run)
    decreases |lines| - i
  {
    if i < |lines| && InRun(lines, i, run) then RunEnd(lines, i + 1, run) else i
  }

  /** One item per line. */
  function Items(i: nat, j: nat): seq<Segment>
    requires i <= j
    decreases j - i
  {
    if i == j then [] else [Block(Span(Item, i, i))] + Items(i + 1, j)
  }

  function Segments(lines: seq<Line>, i: nat): seq<Segment>
    requires i <= |lines|
    decreases |lines| - i
  {
    if i == |lines| then []
    else
      match KindAt(lines, i)
      case BlankLine => Segments(lines, i + 1)
      case RuleLine => [Rule(i)] + Segments(lines, i + 1)
      case HeadingLine => [Block(Span(Heading, i, i))] + Segments(lines, i + 1)
      case TableStart => var j := RunEnd(lines, i + 2, Pipes); [Table(i, j - 1)] + Segments(lines, j)
      case QuoteLine => var j := RunEnd(lines, i + 1, Quotes); [Block(Span(Quote, i, j - 1))] + Segments(lines, j)
      case BulletLine => var j := RunEnd(lines, i + 1, Bullets); Items(i, j) + Segments(lines, j)
      case NumberedLine => var j := RunEnd(lines, i + 1, Numbers); Items(i, j) + Segments(lines, j)
      case PlainLine => var j := RunEnd(lines, i + 1, Plains); [Block(Span(Paragraph, i, j - 1))] + Segments(lines, j)
  }

  function SpansOf(segments: seq<Segment>): seq<Span> {
    if segments == [] then []
    else SpanOf(segments[0]) + SpansOf(segments[1..])
  }

  function SpanOf(s: Segment): seq<Span> {
    match s case Block(span) => [span] case _ => []
  }

  lemma {:induction false} SpansJoin(x: seq<Segment>, y: seq<Segment>)
    ensures SpansOf(x + y) == SpansOf(x) + SpansOf(y)
    decreases |x|
  {
    hide SpanOf;
    if x == [] {
      assert x + y == y;
    } else {
      assert (x + y)[0] == x[0] && (x + y)[1..] == x[1..] + y;
      SpansJoin(x[1..], y);
    }
  }

  // ---- A partition ----------------------------------------------------------------------------------------

  /** Non-empty stretches in strictly increasing order, from `i` on. */
  predicate InOrder(segments: seq<Segment>, i: nat, n: nat) {
    segments == [] ||
    (i <= First(segments[0]) <= Last(segments[0]) < n && InOrder(segments[1..], Last(segments[0]) + 1, n))
  }

  predicate Holds(s: Segment, k: int) {
    First(s) <= k <= Last(s)
  }

  /** The line is in one of the segments. */
  predicate Covered(segments: seq<Segment>, k: int) {
    exists m :: 0 <= m < |segments| && Holds(segments[m], k)
  }

  lemma {:induction false} OrderedJoin(x: seq<Segment>, y: seq<Segment>, i: nat, j: nat, n: nat)
    requires i <= j <= n && InOrder(x, i, j) && InOrder(y, j, n)
    ensures InOrder(x + y, i, n)
    decreases |x|
  {
    if x == [] {
      assert x + y == y;
      LaterStart(y, i, j, n);
    } else {
      assert (x + y)[1..] == x[1..] + y;
      OrderedJoin(x[1..], y, Last(x[0]) + 1, j, n);
    }
  }

  lemma LaterStart(y: seq<Segment>, i: nat, j: nat, n: nat)
    requires i <= j && InOrder(y, j, n)
    ensures InOrder(y, i, n)
  {
  }

  lemma CoveredJoin(x: seq<Segment>, y: seq<Segment>, k: int)
    ensures Covered(x + y, k) <==> Covered(x, k) || Covered(y, k)
  {
    if m :| 0 <= m < |x| && Holds(x[m], k) {
      assert Holds((x + y)[m], k);
    }
    if m :| 0 <= m < |y| && Holds(y[m], k) {
      assert Holds((x + y)[|x| + m], k);
    }
    if m :| 0 <= m < |x + y| && Holds((x + y)[m], k) {
      assert m < |x| ==> Holds(x[m], k);
      assert m >= |x| ==> Holds(y[m - |x|], k);
    }
  }

  lemma {:induction false} ItemsCover(i: nat, j: nat)
    requires i <= j
    ensures InOrder(Items(i, j), i, j) && forall k :: Covered(Items(i, j), k) <==> i <= k < j
    decreases j - i
  {
    if i < j {
      ItemsCover(i + 1, j);
      var head := [Block(Span(Item, i, i))];
      assert Items(i, j)[1..] == Items(i + 1, j);
      forall k ensures Covered(Items(i, j), k) <==> i <= k < j {
        CoveredJoin(head, Items(i + 1, j), k);
        OneCovers(head[0], k);
      }
    }
  }

  lemma OneCovers(s: Segment, k: int)
    ensures Covered([s], k) <==> Holds(s, k)
  {
    assert [s][0] == s;
  }

  /** From `i` on: ordered, without overlap, and exactly the lines that are not blank. */
  ghost predicate Partitions(segments: seq<Segment>, lines: seq<Line>, i: nat) {
    && InOrder(segments, i, |lines|)
    && forall k: int :: Covered(segments, k) <==> i <= k < |lines| && lines[k].Text?
  }

  lemma {:induction false} SegmentsPartition(lines: seq<Line>, i: nat)
    requires i <= |lines|
    ensures Partitions(Segments(lines, i), lines, i)
    decreases |lines| - i, 2
  {
    hide RunEnd, Items, KindAt, InRun, Partitions;
    if i == |lines| {
      NothingLeft(lines);
    } else {
      StartIsText(lines, i);
      match KindAt(lines, i) {
        case BlankLine =>
          SegmentsPartition(lines, i + 1);
          SkipBlank(Segments(lines, i + 1), lines, i);
        case RuleLine => Step(lines, Rule(i), i, i + 1);
        case HeadingLine => Step(lines, Block(Span(Heading, i, i)), i, i + 1);
        case TableStart =>
          var j := RunEnd(lines, i + 2, Pipes);
          RunIsText(lines, i + 2, Pipes);
          Step(lines, Table(i, j - 1), i, j);
        case QuoteLine =>
          var j := RunEnd(lines, i + 1, Quotes);
          RunIsText(lines, i + 1, Quotes);
          Step(lines, Block(Span(Quote, i, j - 1)), i, j);
        case BulletLine =>
          RunIsText(lines, i + 1, Bullets);
          ItemsCover(i, RunEnd(lines, i + 1, Bullets));
          Extend(lines, Items(i, RunEnd(lines, i + 1, Bullets)), i, RunEnd(lines, i + 1, Bullets));
        case NumberedLine =>
          RunIsText(lines, i + 1, Numbers);
          ItemsCover(i, RunEnd(lines, i + 1, Numbers));
          Extend(lines, Items(i, RunEnd(lines, i + 1, Numbers)), i, RunEnd(lines, i + 1, Numbers));
        case PlainLine =>
          var j := RunEnd(lines, i + 1, Plains);
          RunIsText(lines, i + 1, Plains);
          Step(lines, Block(Span(Paragraph, i, j - 1)), i, j);
      }
    }
  }

  lemma NothingLeft(lines: seq<Line>)
    ensures Partitions([], lines, |lines|)
  {
  }

  lemma SkipBlank(segments: seq<Segment>, lines: seq<Line>, i: nat)
    requires i < |lines| && lines[i].Blank? && Partitions(segments, lines, i + 1)
    ensures Partitions(segments, lines, i)
  {
    hide Covered;
  }

  /** Every line a branch consumes has text. */
  lemma StartIsText(lines: seq<Line>, i: nat)
    requires i < |lines|
    ensures KindAt(lines, i) == BlankLine <==> lines[i].Blank?
    ensures KindAt(lines, i) == TableStart ==> i + 2 <= |lines| && lines[i + 1].Text?
    ensures KindAt(lines, i) == BulletLine ==> InRun(lines, i, Bullets)
    ensures KindAt(lines, i) == NumberedLine ==> InRun(lines, i, Numbers)
  {
  }

  lemma RunIsText(lines: seq<Line>, i: nat, run: Run)
    requires i <= |lines|
    ensures forall k :: i <= k < RunEnd(lines, i, run) ==> lines[k].Text?
  {
    hide RunEnd;
    forall k | i <= k < RunEnd(lines, i, run) ensures lines[k].Text? {
      assert InRun(lines, k, run);
    }
  }

  lemma {:induction false} Step(lines: seq<Line>, head: Segment, i: nat, j: nat)
    requires i < j <= |lines| && First(head) == i && Last(head) == j - 1
    requires forall k :: i <= k < j ==> lines[k].Text?
    ensures Partitions([head] + Segments(lines, j), lines, i)
    decreases |lines| - i, 1
  {
    hide Covered, Segments, Partitions;
    assert [head][1..] == [];
    forall k ensures Covered([head], k) <==> i <= k < j {
      OneCovers(head, k);
    }
    Extend(lines, [head], i, j);
  }

  lemma {:induction false} Extend(lines: seq<Line>, head: seq<Segment>, i: nat, j: nat)
    requires i < j <= |lines| && InOrder(head, i, j) && forall k :: Covered(head, k) <==> i <= k < j
    requires forall k :: i <= k < j ==> lines[k].Text?
    ensures Partitions(head + Segments(lines, j), lines, i)
    decreases |lines| - i, 0
  {
    hide Covered, Segments;
    SegmentsPartition(lines, j);
    OrderedJoin(head, Segments(lines, j), i, j, |lines|);
    forall k: int ensures Covered(head + Segments(lines, j), k) <==> i <= k < |lines| && lines[k].Text? {
      CoveredJoin(head, Segments(lines, j), k);
    }
  }

  /** No line is in two segments. */
  lemma {:induction false} Disjoint(segments: seq<Segment>, i: nat, n: nat, a: nat, b: nat, k: int)
    requires InOrder(segments, i, n) && a < b < |segments|
    ensures !(Holds(segments[a], k) && Holds(segments[b], k)) && Last(segments[a]) < First(segments[b])
    decreases |segments|
  {
    if a > 0 {
      Disjoint(segments[1..], Last(segments[0]) + 1, n, a - 1, b - 1, k);
    } else {
      StartsLater(segments[1..], Last(segments[0]) + 1, n, b - 1);
    }
  }

  lemma {:induction false} StartsLater(segments: seq<Segment>, i: nat, n: nat, b: nat)
    requires InOrder(segments, i, n) && b < |segments|
    ensures i <= First(segments[b])
    decreases |segments|
  {
    if b > 0 {
      StartsLater(segments[1..], Last(segments[0]) + 1, n, b - 1);
    }
  }

  /** Spans that hold a line each, from line `i` to before line `n`, one after the other without overlap. */
  predicate Apart(spans: seq<Span>, i: nat, n: nat) {
    && (forall k :: 0 <= k < |spans| ==> i <= spans[k].start <= spans[k].end < n)
    && forall a, b :: 0 <= a < b < |spans| ==> spans[a].end < spans[b].start
  }

  lemma {:induction false} SpansApart(segments: seq<Segment>, i: nat, n: nat)
    requires InOrder(segments, i, n)
    ensures Apart(SpansOf(segments), i, n)
    decreases |segments|
  {
    if segments != [] {
      SpansApart(segments[1..], Last(segments[0]) + 1, n);
    }
  }

  lemma AllApart(lines: seq<Line>)
    ensures Apart(SpansOf(Segments(lines, 0)), 0, |lines|)
  {
    hide Segments, SpansOf, Apart, InOrder, Covered;
    SegmentsPartition(lines, 0);
    SpansApart(Segments(lines, 0), 0, |lines|);
  }

  // ---- Which lines a segment is made of --------------------------------------------------------------------

  /** A rule or a heading comes before everything else; a table needs its separator line. */
  predicate StartsTable(lines: seq<Line>, i: nat)
    requires i < |lines|
  {
    && lines[i].Text? && !lines[i].rule && !lines[i].heading && lines[i].pipe
    && i + 1 < |lines| && lines[i + 1].Text? && lines[i + 1].separator
  }

  /** Neither rule nor heading nor the start of a table. */
  predicate Ordinary(lines: seq<Line>, i: nat)
    requires i < |lines|
  {
    lines[i].Text? && !lines[i].rule && !lines[i].heading && !StartsTable(lines, i)
  }

  predicate Plain(lines: seq<Line>, i: nat)
    requires i < |lines|
  {
    Ordinary(lines, i) && !lines[i].quote && !lines[i].bullet && !lines[i].numbered
  }

  /** A line with a list marker, in a list that begins at `b`. */
  predicate Listed(lines: seq<Line>, b: nat, i: nat)
    requires b <= i < |lines|
  {
    && Ordinary(lines, b) && !lines[b].quote
    && (|| (forall k :: b <= k <= i ==> lines[k].Text? && lines[k].bullet)
        || (!lines[b].bullet && forall k :: b <= k <= i ==> lines[k].Text? && lines[k].numbered))
  }

  /** The lines of a segment are of its kind, and it goes on as long as it can. */
  predicate Right(lines: seq<Line>, s: Segment) {
    First(s) <= Last(s) < |lines| &&
    match s
    case Rule(i) => lines[i].Text? && lines[i].rule
    case Table(i, e) =>
      && StartsTable(lines, i) && i < e && (forall k :: i + 2 <= k <= e ==> lines[k].Text? && lines[k].pipe)
      && (e + 1 < |lines| ==> !(lines[e + 1].Text? && lines[e + 1].pipe))
    case Block(Span(Heading, i, e)) => i == e && lines[i].Text? && !lines[i].rule && lines[i].heading
    case Block(Span(Quote, i, e)) =>
      && Ordinary(lines, i) && (forall k :: i <= k <= e ==> lines[k].Text? && lines[k].quote)
      && (e + 1 < |lines| ==> !(lines[e + 1].Text? && lines[e + 1].quote))
    case Block(Span(Item, i, e)) => i == e && exists b :: 0 <= b <= i && Listed(lines, b, i)
    case Block(Span(Paragraph, i, e)) =>
      && (forall k :: i <= k <= e ==> Plain(lines, k)) && (e + 1 < |lines| ==> !Plain(lines, e + 1))
  }

  lemma {:induction false} SpansAreBlocks(segments: seq<Segment>)
    ensures forall span :: span in SpansOf(segments) <==> Block(span) in segments
    decreases |segments|
  {
    if segments != [] {
      SpansAreBlocks(segments[1..]);
      assert segments == [segments[0]] + segments[1..];
    }
  }

  lemma KindIsExact(lines: seq<Line>, i: nat)
    requires i < |lines|
    ensures KindAt(lines, i) == RuleLine ==> Right(lines, Rule(i))
    ensures KindAt(lines, i) == HeadingLine ==> Right(lines, Block(Span(Heading, i, i)))
    ensures KindAt(lines, i) == TableStart ==> StartsTable(lines, i)
    ensures KindAt(lines, i) == QuoteLine ==> Ordinary(lines, i) && lines[i].quote
    ensures KindAt(lines, i) in {BulletLine, NumberedLine} ==> Listed(lines, i, i)
    ensures KindAt(lines, i) == PlainLine <==> Plain(lines, i)
  {
  }

  lemma {:induction false} ItemsAreRight(lines: seq<Line>, b: nat, i: nat, j: nat)
    requires b <= i <= j <= |lines| && forall k :: i <= k < j ==> Listed(lines, b, k)
    ensures forall s :: s in Items(i, j) ==> Right(lines, s)
    decreases j - i
  {
    hide Listed;
    if i < j {
      ItemsAreRight(lines, b, i + 1, j);
      assert Listed(lines, b, i);
    }
  }

  /** The list that begins at `i`. */
  lemma ListIsRight(lines: seq<Line>, i: nat, run: Run)
    requires i < |lines| && Listed(lines, i, i)
    requires if run.Bullets? then KindAt(lines, i) == BulletLine else run.Numbers? && KindAt(lines, i) == NumberedLine
    ensures forall s :: s in Items(i, RunEnd(lines, i + 1, run)) ==> Right(lines, s)
  {
    hide RunEnd, Items, Right;
    var j := RunEnd(lines, i + 1, run);
    forall m | i <= m < j
      ensures lines[m].Text? && (run.Bullets? ==> lines[m].bullet) && (run.Numbers? ==> lines[m].numbered)
    {
      assert m > i ==> InRun(lines, m, run);
    }
    forall k | i <= k < j ensures Listed(lines, i, k) {
    }
    ItemsAreRight(lines, i, i, j);
  }

  /** Every segment is made of the right lines. */
  lemma {:induction false} SegmentsAreRight(lines: seq<Line>, i: nat)
    requires i <= |lines|
    ensures forall s :: s in Segments(lines, i) ==> Right(lines, s)
    decreases |lines| - i
  {
    hide RunEnd, Items, Right, Listed;
    if i < |lines| {
      KindIsExact(lines, i);
      hide KindAt;
      match KindAt(lines, i) {
        case BlankLine => SegmentsAreRight(lines, i + 1);
        case RuleLine => SegmentsAreRight(lines, i + 1);
        case HeadingLine => SegmentsAreRight(lines, i + 1);
        case TableStart =>
          TableIsRight(lines, i);
          SegmentsAreRight(lines, RunEnd(lines, i + 2, Pipes));
        case QuoteLine =>
          QuoteIsRight(lines, i);
          SegmentsAreRight(lines, RunEnd(lines, i + 1, Quotes));
        case BulletLine =>
          ListIsRight(lines, i, Bullets);
          SegmentsAreRight(lines, RunEnd(lines, i + 1, Bullets));
        case NumberedLine =>
          ListIsRight(lines, i, Numbers);
          SegmentsAreRight(lines, RunEnd(lines, i + 1, Numbers));
        case PlainLine =>
          ParagraphIsRight(lines, i);
          SegmentsAreRight(lines, RunEnd(lines, i + 1, Plains));
      }
    }
  }

  lemma TableIsRight(lines: seq<Line>, i: nat)
    requires i < |lines| && StartsTable(lines, i)
    ensures Right(lines, Table(i, RunEnd(lines, i + 2, Pipes) - 1))
  {
    hide RunEnd;
    var j := RunEnd(lines, i + 2, Pipes);
    forall k | i + 2 <= k < j ensures lines[k].Text? && lines[k].pipe {
      assert InRun(lines, k, Pipes);
    }
    assert j < |lines| ==> !InRun(lines, j, Pipes);
  }

  lemma QuoteIsRight(lines: seq<Line>, i: nat)
    requires i < |lines| && Ordinary(lines, i) && lines[i].quote
    ensures Right(lines, Block(Span(Quote, i, RunEnd(lines, i + 1, Quotes) - 1)))
  {
    hide RunEnd;
    var j := RunEnd(lines, i + 1, Quotes);
    forall k | i + 1 <= k < j ensures lines[k].Text? && lines[k].quote {
      assert InRun(lines, k, Quotes);
    }
    assert j < |lines| ==> !InRun(lines, j, Quotes);
  }

  lemma ParagraphIsRight(lines: seq<Line>, i: nat)
    requires i < |lines| && Plain(lines, i)
    ensures Right(lines, Block(Span(Paragraph, i, RunEnd(lines, i + 1, Plains) - 1)))
  {
    hide RunEnd, Plain, KindAt;
    var j := RunEnd(lines, i + 1, Plains);
    forall k | i <= k < |lines| ensures Plain(lines, k) <==> InRun(lines, k, Plains) {
      KindIsExact(lines, k);
    }
    assert forall k :: i + 1 <= k < j ==> InRun(lines, k, Plains);
  }

  // ---- The loop -------------------------------------------------------------------------------------------

  /** `markdown`, as far as its spans go: those of the reference segmentation, in order and without overlap. */
  method Markdown(lines: seq<Line>) returns (spans: seq<Span>)
    ensures spans == SpansOf(Segments(lines, 0))
    ensures Apart(spans, 0, |lines|)
    ensures forall span :: span in spans ==> Right(lines, Block(span))
  {
    hide Segments, SpansOf, KindAt, RunEnd, InRun, Items, Apart, Right;
    SegmentsAreRight(lines, 0);
    SpansAreBlocks(Segments(lines, 0));
    AllApart(lines);
    var n := |lines|;
    spans := [];
    var i: nat := 0;
    var para := false;
    var paraStart: nat, paraEnd: nat := 0, 0;
    while i < n
      invariant i <= n
      invariant para ==> paraStart < i && paraEnd == i - 1 && forall k :: paraStart <= k < i ==>
                KindAt(lines, k) == PlainLine
      invariant SpansOf(Segments(lines, 0)) == spans + SpansOf(Segments(lines, if para then paraStart else i))
      decreases n - i
    {
      if KindAt(lines, i) != PlainLine {
        if para {
          Flush(lines, paraStart, i);
          spans, para := spans + [Span(Paragraph, paraStart, paraEnd)], false;
        }
        var more;
        more, i := EmitBlock(lines, i);
        spans := spans + more;
      } else {
        if !para {
          para, paraStart := true, i;
        }
        paraEnd := i;
        i := i + 1;
      }
    }
    NoLines(lines);
    if para {
      Flush(lines, paraStart, i);
      spans := spans + [Span(Paragraph, paraStart, paraEnd)];
    }
  }

  /** One turn of the loop at a line that is not paragraph text. */
  method EmitBlock(lines: seq<Line>, i: nat) returns (more: seq<Span>, j: nat)
    requires i < |lines| && KindAt(lines, i) != PlainLine
    ensures i < j <= |lines| && SpansOf(Segments(lines, i)) == more + SpansOf(Segments(lines, j))
  {
    hide Segments, SpansOf, KindAt, RunEnd, InRun, Items;
    var kind := KindAt(lines, i);
    StartIsText(lines, i);
    OneLine(lines, i);
    if kind == BlankLine || kind == RuleLine {
      return [], i + 1;
    } else if kind == HeadingLine {
      return [Span(Heading, i, i)], i + 1;
    } else if kind == TableStart {
      j := SkipRun(lines, i + 2, Pipes);
      more := [];
    } else if kind == QuoteLine {
      j := SkipRun(lines, i + 1, Quotes);
      more := [Span(Quote, i, j - 1)];
    } else {
      more, j := EmitItems(lines, i, if kind == BulletLine then Bullets else Numbers);
    }
    ManyLines(lines, i, j);
  }

  /** The inner loop over the rest of a table or a quotation. */
  method SkipRun(lines: seq<Line>, i: nat, run: Run) returns (j: nat)
    requires i <= |lines|
    ensures j == RunEnd(lines, i, run)
  {
    j := i;
    while j < |lines| && InRun(lines, j, run)
      invariant i <= j <= |lines| && RunEnd(lines, i, run) == RunEnd(lines, j, run)
    {
      j := j + 1;
    }
  }

  /** The inner loop over a list: one span an item. */
  method EmitItems(lines: seq<Line>, i: nat, run: Run) returns (spans: seq<Span>, j: nat)
    requires i < |lines| && InRun(lines, i, run)
    ensures i < j == RunEnd(lines, i + 1, run) && spans == SpansOf(Items(i, j))
  {
    hide Items, SpansOf, InRun;
    j, spans := i, [];
    NoItems(i);
    while j < |lines| && InRun(lines, j, run)
      invariant i <= j <= |lines| && (j == i || RunEnd(lines, i + 1, run) == RunEnd(lines, j, run))
      invariant spans == SpansOf(Items(i, j))
    {
      ItemsSnoc(i, j);
      spans := spans + [Span(Item, j, j)];
      j := j + 1;
    }
  }

  lemma NoItems(i: nat)
    ensures SpansOf(Items(i, i)) == []
  {
  }

  lemma NoLines(lines: seq<Line>)
    ensures SpansOf(Segments(lines, |lines|)) == []
  {
  }

  lemma {:induction false} RunEndAt(lines: seq<Line>, i: nat, j: nat, run: Run)
    requires i <= j <= |lines| && forall k :: i <= k < j ==> InRun(lines, k, run)
    requires j < |lines| ==> !InRun(lines, j, run)
    ensures RunEnd(lines, i, run) == j
    decreases j - i
  {
    if i < j {
      RunEndAt(lines, i + 1, j, run);
    }
  }

  /** A paragraph ends where the next line is something else. */
  lemma Flush(lines: seq<Line>, start: nat, i: nat)
    requires start < i <= |lines| && forall k :: start <= k < i ==> KindAt(lines, k) == PlainLine
    requires i < |lines| ==> KindAt(lines, i) != PlainLine
    ensures SpansOf(Segments(lines, start)) == [Span(Paragraph, start, i - 1)] + SpansOf(Segments(lines, i))
  {
    hide KindAt;
    RunEndAt(lines, start + 1, i, Plains);
    SpansJoin([Block(Span(Paragraph, start, i - 1))], Segments(lines, i));
    OneSpan(Block(Span(Paragraph, start, i - 1)));
  }

  lemma OneSpan(s: Segment)
    ensures SpansOf([s]) == SpanOf(s)
  {
    assert [s][1..] == [];
  }

  lemma OneLine(lines: seq<Line>, i: nat)
    requires i < |lines|
    ensures KindAt(lines, i) == BlankLine || KindAt(lines, i) == RuleLine ==>
              SpansOf(Segments(lines, i)) == SpansOf(Segments(lines, i + 1))
    ensures KindAt(lines, i) == HeadingLine ==>
              SpansOf(Segments(lines, i)) == [Span(Heading, i, i)] + SpansOf(Segments(lines, i + 1))
  {
    hide KindAt;
    SpansJoin([Rule(i)], Segments(lines, i + 1));
    SpansJoin([Block(Span(Heading, i, i))], Segments(lines, i + 1));
    OneSpan(Rule(i));
    OneSpan(Block(Span(Heading, i, i)));
  }

  lemma ManyLines(lines: seq<Line>, i: nat, j: nat)
    requires i < j <= |lines|
    ensures KindAt(lines, i) == TableStart && j == RunEnd(lines, i + 2, Pipes) ==>
              SpansOf(Segments(lines, i)) == SpansOf(Segments(lines, j))
    ensures KindAt(lines, i) == QuoteLine && j == RunEnd(lines, i + 1, Quotes) ==>
              SpansOf(Segments(lines, i)) == [Span(Quote, i, j - 1)] + SpansOf(Segments(lines, j))
    ensures KindAt(lines, i) == BulletLine && j == RunEnd(lines, i + 1, Bullets) ==>
              SpansOf(Segments(lines, i)) == SpansOf(Items(i, j)) + SpansOf(Segments(lines, j))
    ensures KindAt(lines, i) == NumberedLine && j == RunEnd(lines, i + 1, Numbers) ==>
              SpansOf(Segments(lines, i)) == SpansOf(Items(i, j)) + SpansOf(Segments(lines, j))
  {
    hide RunEnd, KindAt, Items, SpansOf;
    SpansJoin([Table(i, j - 1)], Segments(lines, j));
    SpansJoin([Block(Span(Quote, i, j - 1))], Segments(lines, j));
    SpansJoin(Items(i, j), Segments(lines, j));
    OneSpan(Table(i, j - 1));
    OneSpan(Block(Span(Quote, i, j - 1)));
  }

  lemma {:induction false} ItemsSnoc(i: nat, j: nat)
    requires i <= j
    ensures SpansOf(Items(i, j + 1)) == SpansOf(Items(i, j)) + [Span(Item, j, j)]
    decreases j - i
  {
    OneSpan(Block(Span(Item, j, j)));
    if i < j {
      ItemsSnoc(i + 1, j);
      SpansJoin([Block(Span(Item, i, i))], Items(i + 1, j + 1));
      SpansJoin([Block(Span(Item, i, i))], Items(i + 1, j));
    } else {
      assert Items(j, j + 1) == [Block(Span(Item, j, j))] + Items(j + 1, j + 1);
    }
  }
}
