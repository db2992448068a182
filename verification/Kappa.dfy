/** Quadratic weighted kappa over paired ratings from 1 to 7, in exact reals. */
module Kappa {
  // Its range, when it is 1, when it is undefined, and that the histogram sum is the pairwise one.

  import opened Text

  predicate IsScore(x: int) {
    1 <= x <= 7
  }

  predicate Scores(xs: seq<int>) {
    forall k :: 0 <= k < |xs| ==> IsScore(xs[k])
  }

  function Square(x: int): (y: int)
    ensures y >= 0 && (y == 0 <==> x == 0)
  {
    x * x
  }

  /** `Counter(xs)[a]`. */
  function Count(xs: seq<int>, a: int): nat {
    if xs == [] then 0 else (if xs[0] == a then 1 else 0) + Count(xs[1..], a)
  }

  /** `sum((a - b) ** 2 for a, b in zip(left, right))`. */
  function Observed(left: seq<int>, right: seq<int>): (s: int)
    requires |left| == |right|
    ensures s >= 0
  {
    if left == [] then 0 else Square(left[0] - right[0]) + Observed(left[1..], right[1..])
  }

  /** One row of the histogram sum: `b` from 1 to `top`, against left scores of `a`. */
  function HistogramRow(weight: nat, a: int, right: seq<int>, top: nat): int {
    if top == 0 then 0
    else HistogramRow(weight, a, right, top - 1) + weight * Count(right, top) * Square(a - top)
  }

  /** The histogram sum with `a` from 1 to `top`. */
  function Histogram(left: seq<int>, right: seq<int>, top: nat): int {
    if top == 0 then 0 else Histogram(left, right, top - 1) + HistogramRow(Count(left, top), top, right, 7)
  }

  /** `quadratic_weighted_kappa`; `None` where the expected disagreement is zero. */
  function QuadraticWeightedKappa(left: seq<int>, right: seq<int>): Option<real>
    requires |left| == |right| && left != []
  {
    Ratio(|left| as real, Observed(left, right) as real, Histogram(left, right, 7) as real)
  }

  lemma Positive(x: real)
    requires x > 0.0
    ensures x * x > 0.0
  {
  }

  /** One minus the observed over the expected mean disagreement. */
  function Ratio(n: real, observed: real, expected: real): Option<real>
    requires n > 0.0
  {
    Positive(n);
    var o, e := observed / n, expected / (n * n);
    if e == 0.0 then None else Some(1.0 - o / e)
  }

  // ---- Products ------------------------------------------------------------------------------------------

  lemma Times(a: int, b: int, c: int)
    ensures a * (b + c) == a * b + a * c && (a + b) * c == a * c + b * c
  {
  }

  lemma Regroup(a: int, b: int, c: int)
    ensures a * b * c == a * (b * c)
  {
  }

  lemma SquareOfSum(x: int, y: int)
    ensures Square(x + y) == Square(x) + 2 * (x * y) + Square(y)
    ensures Square(x - y) == Square(x) - 2 * (x * y) + Square(y)
    ensures Square(x - y) == Square(y - x)
  {
  }

  // ---- The histogram sum is the pairwise sum ------------------------------------------------------------

  /** The disagreement of one score with every score of a rater. */
  function Against(x: int, right: seq<int>): (s: int)
    ensures s >= 0
  {
    if right == [] then 0 else Square(x - right[0]) + Against(x, right[1..])
  }

  /** The disagreement of every score of one rater with every score of the other. */
  function Pairwise(left: seq<int>, right: seq<int>): (s: int)
    ensures s >= 0
  {
    if left == [] then 0 else Against(left[0], right) + Pairwise(left[1..], right)
  }

  lemma {:induction false} RowScales(weight: nat, a: int, right: seq<int>, top: nat)
    ensures HistogramRow(weight, a, right, top) == weight * HistogramRow(1, a, right, top)
    decreases top
  {
    hide Square, Count;
    if top > 0 {
      RowScales(weight, a, right, top - 1);
      var c, q := Count(right, top), Square(a - top);
      Regroup(weight, c, q);
      Times(weight, HistogramRow(1, a, right, top - 1), c * q);
    }
  }

  lemma {:induction false} RowStep(a: int, right: seq<int>, top: nat)
    requires right != [] && right[0] >= 1
    ensures HistogramRow(1, a, right, top) ==
            HistogramRow(1, a, right[1..], top) + if right[0] <= top then Square(a - right[0]) else 0
    decreases top
  {
    hide Square;
    if top > 0 {
      RowStep(a, right, top - 1);
      if right[0] == top {
        Times(1, Count(right[1..], top), Square(a - top));
      }
    }
  }

  lemma {:induction false} RowIsAgainst(a: int, right: seq<int>)
    requires Scores(right)
    ensures HistogramRow(1, a, right, 7) == Against(a, right)
    decreases |right|
  {
    if right == [] {
      EmptyRow(a, 7);
    } else {
      RowStep(a, right, 7);
      RowIsAgainst(a, right[1..]);
    }
  }

  lemma EmptyRow(a: int, top: nat)
    ensures HistogramRow(1, a, [], top) == 0
  {
  }

  lemma {:induction false} HistogramStep(left: seq<int>, right: seq<int>, top: nat)
    requires left != [] && left[0] >= 1
    ensures Histogram(left, right, top) ==
            Histogram(left[1..], right, top) + if left[0] <= top then HistogramRow(1, left[0], right, 7) else 0
    decreases top
  {
    if top > 0 {
      HistogramStep(left, right, top - 1);
      var c, d := Count(left, top), Count(left[1..], top);
      RowScales(c, top, right, 7);
      RowScales(d, top, right, 7);
      Times(1, d, HistogramRow(1, top, right, 7));
    }
  }

  lemma {:induction false} EmptyHistogram(right: seq<int>, top: nat)
    ensures Histogram([], right, top) == 0
    decreases top
  {
    if top > 0 {
      EmptyHistogram(right, top - 1);
      RowScales(0, top, right, 7);
    }
  }

  /** Counting by score gives the same expected disagreement as comparing every pair. */
  lemma {:induction false} HistogramIsPairwise(left: seq<int>, right: seq<int>)
    requires Scores(left) && Scores(right)
    ensures Histogram(left, right, 7) == Pairwise(left, right)
    decreases |left|
  {
    if left == [] {
      EmptyHistogram(right, 7);
    } else {
      HistogramStep(left, right, 7);
      RowIsAgainst(left[0], right);
      HistogramIsPairwise(left[1..], right);
    }
  }

  // ---- Moments --------------------------------------------------------------------------------------------

  function Sum(xs: seq<int>): int {
    if xs == [] then 0 else xs[0] + Sum(xs[1..])
  }

  function Squares(xs: seq<int>): int {
    if xs == [] then 0 else Square(xs[0]) + Squares(xs[1..])
  }

  function Products(left: seq<int>, right: seq<int>): int
    requires |left| == |right|
  {
    if left == [] then 0 else left[0] * right[0] + Products(left[1..], right[1..])
  }

  lemma {:induction false} AgainstMoments(x: int, right: seq<int>)
    ensures Against(x, right) == |right| * Square(x) - 2 * (x * Sum(right)) + Squares(right)
    decreases |right|
  {
    hide Square;
    if right != [] {
      AgainstMoments(x, right[1..]);
      var y, n := right[0], |right| - 1;
      SquareOfSum(x, y);
      Times(n, 1, Square(x));
      Times(x, y, Sum(right[1..]));
    }
  }

  lemma {:induction false} PairwiseMoments(left: seq<int>, right: seq<int>)
    ensures Pairwise(left, right) ==
            |right| * Squares(left) - 2 * (Sum(left) * Sum(right)) + |left| * Squares(right)
    decreases |left|
  {
    hide Square;
    if left != [] {
      PairwiseMoments(left[1..], right);
      AgainstMoments(left[0], right);
      var x, n := left[0], |left| - 1;
      Times(|right|, Square(x), Squares(left[1..]));
      Times(x, Sum(left[1..]), Sum(right));
      Times(n, 1, Squares(right));
    }
  }

  lemma {:induction false} ObservedMoments(left: seq<int>, right: seq<int>)
    requires |left| == |right|
    ensures Observed(left, right) == Squares(left) + Squares(right) - 2 * Products(left, right)
    decreases |left|
  {
    hide Square;
    if left != [] {
      ObservedMoments(left[1..], right[1..]);
      SquareOfSum(left[0], right[0]);
    }
  }

  /** The two ratings of every work add up to `z`. */
  predicate Mirrored(left: seq<int>, right: seq<int>, z: int)
    requires |left| == |right|
  {
    forall k :: 0 <= k < |left| ==> left[k] + right[k] == z
  }

  lemma MirroredStep(left: seq<int>, right: seq<int>, z: int)
    requires |left| == |right| && left != []
    ensures Mirrored(left, right, z) <==> left[0] + right[0] == z && Mirrored(left[1..], right[1..], z)
  {
    if left[0] + right[0] == z && Mirrored(left[1..], right[1..], z) {
      assert forall k :: 1 <= k < |left| ==> left[k] == left[1..][k - 1] && right[k] == right[1..][k - 1];
    }
  }

  /**
   Cauchy and Schwarz for the sums `left[k] + right[k]`, one element at a time, with equality exactly when all of
   them are the same.
   */
  lemma {:induction false} SumOfSquares(left: seq<int>, right: seq<int>)
    requires |left| == |right|
    ensures Square(Sum(left) + Sum(right)) <=
            |left| * (Squares(left) + Squares(right) + 2 * Products(left, right))
    ensures left != [] ==>
              (Square(Sum(left) + Sum(right)) == |left| * (Squares(left) + Squares(right) + 2 * Products(left, right))
               <==> Mirrored(left, right, left[0] + right[0]))
    decreases |left|
  {
    hide Square, Mirrored;
    if left != [] {
      SumOfSquares(left[1..], right[1..]);
      var z, n, t := left[0] + right[0], |left| - 1, Sum(left[1..]) + Sum(right[1..]);
      MirroredStep(left, right, z);
      MirroredTail(left[1..], right[1..], z);
      SquareOfSum(left[0], right[0]);
      SpreadIsSquare(left[1..], right[1..], z);
      OneMoreTerm(n, t, Squares(left[1..]) + Squares(right[1..]) + 2 * Products(left[1..], right[1..]), z);
    } else {
      assert Square(0) == 0;
    }
  }

  lemma MirroredTail(left: seq<int>, right: seq<int>, z: int)
    requires |left| == |right|
    ensures Mirrored(left, right, z) ==> left == [] || Mirrored(left, right, left[0] + right[0])
    ensures left == [] ==> Mirrored(left, right, z) && Sum(left) + Sum(right) == 0
  {
  }

  /**
   The squared distances of the sums from `z` add up to something that is not negative, and to nothing exactly when
   every sum is `z`.
   */
  lemma {:induction false} SpreadIsSquare(left: seq<int>, right: seq<int>, z: int)
    requires |left| == |right|
    ensures 0 <= Squares(left) + Squares(right) + 2 * Products(left, right)
                 - 2 * (z * (Sum(left) + Sum(right))) + |left| * Square(z)
    ensures 2 * (z * (Sum(left) + Sum(right))) ==
            Squares(left) + Squares(right) + 2 * Products(left, right) + |left| * Square(z)
            <==> Mirrored(left, right, z)
    decreases |left|
  {
    hide Square, Mirrored;
    MirroredTail(left, right, z);
    if left != [] {
      MirroredStep(left, right, z);
      SpreadIsSquare(left[1..], right[1..], z);
      var x, y, t, n := left[0], right[0], Sum(left[1..]) + Sum(right[1..]), |left| - 1;
      SquareOfSum(x, y);
      SquareOfSum(x + y, z);
      Times(z, x + y, t);
      Times(n, 1, Square(z));
      assert (x + y) * z == z * (x + y);
    }
  }

  lemma OneMoreTerm(n: int, t: int, q: int, z: int)
    requires Square(t) <= n * q && 0 <= q - 2 * (z * t) + n * Square(z)
    ensures Square(z + t) <= (n + 1) * (Square(z) + q)
    ensures Square(z + t) == (n + 1) * (Square(z) + q) <==>
            Square(t) == n * q && q - 2 * (z * t) + n * Square(z) == 0
  {
    hide Square;
    SquareOfSum(z, t);
    Times(n, 1, Square(z) + q);
    Times(n, Square(z), q);
  }

  /**
   Observed disagreement is at most twice what chance predicts, and as much exactly when the two ratings of every work
   add up to the same number and the raters' sums are equal.
   */
  lemma ObservedIsBounded(left: seq<int>, right: seq<int>)
    requires |left| == |right|
    ensures |left| * Observed(left, right) <= 2 * Pairwise(left, right)
    ensures left != [] ==>
              (|left| * Observed(left, right) == 2 * Pairwise(left, right) <==>
               Mirrored(left, right, left[0] + right[0]) && Sum(left) == Sum(right))
  {
    hide Square, Squares, Products, Sum, Observed, Pairwise, Mirrored;
    var n, a, b, c := |left|, Squares(left), Squares(right), Products(left, right);
    var p, q := Sum(left), Sum(right);
    PairwiseMoments(left, right);
    ObservedMoments(left, right);
    SumOfSquares(left, right);
    SquareOfSum(p, q);
    Times(n, a, b);
    Times(n, a + b, 2 * c);
    Times(n, a + b, -2 * c);
  }

  // ---- When disagreement is zero ----------------------------------------------------------------------------

  lemma {:induction false} NoneObserved(left: seq<int>, right: seq<int>)
    requires |left| == |right|
    ensures Observed(left, right) == 0 <==> left == right
    decreases |left|
  {
    if left != [] {
      NoneObserved(left[1..], right[1..]);
      assert left == [left[0]] + left[1..] && right == [right[0]] + right[1..];
    }
  }

  predicate Constant(xs: seq<int>, c: int) {
    forall k :: 0 <= k < |xs| ==> xs[k] == c
  }

  lemma {:induction false} NoneAgainst(x: int, right: seq<int>)
    ensures Against(x, right) == 0 <==> Constant(right, x)
    decreases |right|
  {
    if right != [] {
      NoneAgainst(x, right[1..]);
      assert Constant(right, x) <==> right[0] == x && Constant(right[1..], x) by {
        if right[0] == x && Constant(right[1..], x) {
          assert forall k :: 1 <= k < |right| ==> right[k] == right[1..][k - 1];
        }
      }
    }
  }

  lemma {:induction false} NonePairwise(left: seq<int>, right: seq<int>, c: int)
    requires right != [] && right[0] == c
    ensures Pairwise(left, right) == 0 <==> left == [] || (Constant(left, c) && Constant(right, c))
    decreases |left|
  {
    if left != [] {
      NoneAgainst(left[0], right);
      NonePairwise(left[1..], right, c);
      if left[0] == c && (left[1..] == [] || Constant(left[1..], c)) {
        assert forall k :: 1 <= k < |left| ==> left[k] == left[1..][k - 1];
      }
    }
  }

  // ---- Kappa ------------------------------------------------------------------------------------------------

  lemma {:induction false} AgainstSwapped(left: seq<int>, y: int, right: seq<int>)
    ensures Pairwise(left, [y] + right) == Against(y, left) + Pairwise(left, right)
    decreases |left|
  {
    if left != [] {
      AgainstSwapped(left[1..], y, right);
      assert ([y] + right)[1..] == right;
      assert Square(left[0] - y) == Square(y - left[0]);
    }
  }

  lemma {:induction false} PairwiseSymmetric(left: seq<int>, right: seq<int>)
    ensures Pairwise(left, right) == Pairwise(right, left)
    decreases |right|
  {
    if right == [] {
      NothingAgainst(left);
    } else {
      AgainstSwapped(left, right[0], right[1..]);
      assert right == [right[0]] + right[1..];
      PairwiseSymmetric(left, right[1..]);
    }
  }

  lemma NothingAgainst(left: seq<int>)
    ensures Pairwise(left, []) == 0
  {
  }

  lemma {:induction false} ObservedSymmetric(left: seq<int>, right: seq<int>)
    requires |left| == |right|
    ensures Observed(left, right) == Observed(right, left)
    decreases |left|
  {
    if left != [] {
      ObservedSymmetric(left[1..], right[1..]);
      assert Square(left[0] - right[0]) == Square(right[0] - left[0]);
    }
  }

  lemma RatioRange(m: real, o: real, e: real)
    requires m > 0.0 && o >= 0.0 && e >= 0.0 && m * o <= 2.0 * e
    ensures Ratio(m, o, e).None? <==> e == 0.0
    ensures Ratio(m, o, e).Some? ==>
              -1.0 <= Ratio(m, o, e).value <= 1.0 && (Ratio(m, o, e).value == 1.0 <==> o == 0.0)
  {
    Positive(m);
    if e > 0.0 {
      Cleared(m, o, e);
      Quotient(o, m);
      DivideBetween(o / m, e / (m * m));
    }
  }

  lemma RealBound(n: int, o: int, e: int)
    requires n * o <= 2 * e
    ensures n as real * o as real <= 2.0 * e as real
  {
    assert (n * o) as real == n as real * o as real;
  }

  lemma Quotient(x: real, y: real)
    requires y > 0.0
    ensures (x / y) * y == x && (x >= 0.0 ==> x / y >= 0.0) && (x > 0.0 ==> x / y > 0.0) && (x == 0.0 ==> x / y == 0.0)
  {
  }

  /** Clearing the denominators of the two means. */
  lemma Cleared(m: real, o: real, e: real)
    requires m > 0.0 && o >= 0.0 && e > 0.0 && m * o <= 2.0 * e
    ensures m * m > 0.0 && e / (m * m) > 0.0 && 0.0 <= o / m <= 2.0 * (e / (m * m))
  {
    Positive(m);
    var mm := m * m;
    var a, b := o / m, e / mm;
    Quotient(o, m);
    Quotient(e, mm);
    assert a * mm == m * o by {
      assert a * mm == (a * m) * m;
    }
    NotAbove(a, 2.0 * b, mm);
  }

  lemma NotAbove(a: real, b: real, m: real)
    requires m > 0.0 && a * m <= b * m
    ensures a <= b
  {
  }

  lemma DivideBetween(a: real, b: real)
    requires b > 0.0 && 0.0 <= a <= 2.0 * b
    ensures 0.0 <= a / b <= 2.0 && (a / b == 0.0 <==> a == 0.0)
  {
    Quotient(a, b);
    NotAbove(a / b, 2.0, b);
  }

  /**
   Kappa is undefined exactly when both raters gave one and the same constant score; otherwise it lies in
   [-1, 1] and is 1 exactly when the ratings agree point by point; and the raters are interchangeable.
   */
  lemma KappaIsCalibrated(left: seq<int>, right: seq<int>)
    requires |left| == |right| && left != [] && Scores(left) && Scores(right)
    ensures QuadraticWeightedKappa(left, right).None? <==> exists c :: Constant(left, c) && Constant(right, c)
    ensures var k := QuadraticWeightedKappa(left, right);
            k.Some? ==> -1.0 <= k.value <= 1.0 && (k.value == 1.0 <==> left == right)
    ensures QuadraticWeightedKappa(left, right) == QuadraticWeightedKappa(right, left)
  {
    hide Histogram, Pairwise, Observed, IsScore, Ratio;
    HistogramIsPairwise(left, right);
    HistogramIsPairwise(right, left);
    PairwiseSymmetric(left, right);
    ObservedSymmetric(left, right);
    NonePairwise(left, right, right[0]);
    NoneObserved(left, right);
    ObservedIsBounded(left, right);
    var o, e := Observed(left, right), Pairwise(left, right);
    PairwiseNotNegative(left, right);
    RealBound(|left|, o, e);
    RatioRange(|left| as real, o as real, e as real);
    assert e == 0 <==> Constant(left, right[0]) && Constant(right, right[0]);
    assert forall c :: Constant(right, c) ==> c == right[0];
  }

  /**
   What the number is: the observed over the expected disagreement is the disagreement of the pairs, times the number
   of works, over the disagreement of every rating of one rater with every rating of the other.  It is -1 exactly when
   the ratings mirror each other around a common mean.
   */
  lemma KappaIsExact(left: seq<int>, right: seq<int>)
    requires |left| == |right| && left != [] && Scores(left) && Scores(right)
    requires QuadraticWeightedKappa(left, right).Some?
    ensures var k := QuadraticWeightedKappa(left, right).value;
            && (1.0 - k) * Pairwise(left, right) as real == |left| as real * Observed(left, right) as real
            && (k == -1.0 <==> Mirrored(left, right, left[0] + right[0]) && Sum(left) == Sum(right))
  {
    hide Histogram, Pairwise, Observed, IsScore, Mirrored, Sum, Ratio;
    HistogramIsPairwise(left, right);
    ObservedIsBounded(left, right);
    PairwiseNotNegative(left, right);
    RealBound(|left|, Observed(left, right), Pairwise(left, right));
    RatioRange(|left| as real, Observed(left, right) as real, Pairwise(left, right) as real);
    RatioIsExact(|left|, Observed(left, right), Pairwise(left, right));
  }

  lemma RatioIsExact(n: nat, o: int, e: int)
    requires n > 0 && e > 0 && Ratio(n as real, o as real, e as real).Some?
    ensures var k := Ratio(n as real, o as real, e as real).value;
            && (1.0 - k) * e as real == n as real * o as real
            && (k == -1.0 <==> n * o == 2 * e)
  {
    hide Ratio;
    var k := Ratio(n as real, o as real, e as real).value;
    RatioValue(n as real, o as real, e as real);
    OnlyTwo(1.0 - k, n, o, e);
  }

  lemma RatioValue(m: real, a: real, b: real)
    requires m > 0.0 && b > 0.0 && Ratio(m, a, b).Some?
    ensures (1.0 - Ratio(m, a, b).value) * b == m * a
  {
    MeansScale(m, a, b);
  }

  lemma MeansScale(m: real, a: real, b: real)
    requires m > 0.0 && b > 0.0
    ensures m * m > 0.0 && b / (m * m) > 0.0 && (a / m) / (b / (m * m)) * b == m * a
  {
    Positive(m);
    var mm := m * m;
    var o, e := a / m, b / mm;
    Quotient(b, mm);
    Quotient(a, m);
    Quotient(o, e);
    Scaled(o / e, o, e, m);
  }

  lemma Scaled(x: real, o: real, e: real, m: real)
    requires x * e == o
    ensures x * (e * (m * m)) == m * (o * m)
  {
  }

  lemma OnlyTwo(x: real, n: nat, o: int, e: int)
    requires e > 0 && x * e as real == n as real * o as real
    ensures x == 2.0 <==> n * o == 2 * e
  {
    var m := n * o;
    assert m as real == n as real * o as real;
    OnlyTwoReal(x, m as real, e as real);
  }

  lemma OnlyTwoReal(x: real, m: real, b: real)
    requires b > 0.0 && x * b == m
    ensures x == 2.0 <==> m == 2.0 * b
  {
  }

  /** The least value is reached. */
  lemma KappaReachesMinusOne()
    ensures QuadraticWeightedKappa([1, 7], [7, 1]) == Some(-1.0)
  {
    hide Histogram, Pairwise, Observed, Ratio, QuadraticWeightedKappa;
    var left, right := [1, 7], [7, 1];
    assert left[1..] == [7] && right[1..] == [1];
    assert Mirrored(left, right, 8) && Sum([1, 7]) == 8 && Sum([7, 1]) == 8;
    KappaIsCalibrated(left, right);
    assert !exists c :: Constant(left, c) && Constant(right, c);
    KappaIsExact(left, right);
  }

  lemma PairwiseNotNegative(left: seq<int>, right: seq<int>)
    ensures Pairwise(left, right) >= 0
  {
  }
}
