/** The effective background of an element, accumulated front to back. */
module AlphaCompositing {
  // Source-over compositing as in section 9.1.4 of W3C Compositing and Blending Level 1: accumulating the
  // ancestors' backgrounds from the front gives what painting them from the back shows.

  import opened Text

  /** Unpremultiplied, channels from 0 to 255, in exact reals. */
  datatype Colour = Colour(r: real, g: real, b: real, a: real)

  const CLEAR := Colour(0.0, 0.0, 0.0, 0.0)
  const WHITE := Colour(255.0, 255.0, 255.0, 1.0)

  predicate Valid(c: Colour) {
    0.0 <= c.a <= 1.0 && c.r <= 255.0 && c.g <= 255.0 && c.b <= 255.0
  }

  /** One channel of the composite, premultiplied. */
  function Pre(f: real, fa: real, b: real, ba: real): real {
    f * fa + b * ba * (1.0 - fa)
  }

  function OverAlpha(fa: real, ba: real): real {
    fa + ba * (1.0 - fa)
  }

  function Over(f: Colour, b: Colour): Colour {
    var a := OverAlpha(f.a, b.a);
    if a == 0.0 then CLEAR
    else Colour(Pre(f.r, f.a, b.r, b.a) / a, Pre(f.g, f.a, b.g, b.a) / a, Pre(f.b, f.a, b.b, b.a) / a, a)
  }

  // ---- Arithmetic of one channel ------------------------------------------------------------------------

  lemma Quotient(x: real, y: real)
    requires y != 0.0
    ensures x / y * y == x
  {
  }

  lemma SameQuotient(x: real, y: real, z: real)
    requires z != 0.0 && x * z == y * z
    ensures x == y
  {
  }

  lemma Product(x: real, y: real)
    requires x >= 0.0 && y >= 0.0
    ensures x * y >= 0.0 && (x * y == 0.0 <==> x == 0.0 || y == 0.0)
  {
  }

  lemma Complement(x: real, y: real)
    ensures (1.0 - x) * (1.0 - y) == 1.0 - OverAlpha(x, y)
  {
  }

  lemma AlphaRange(x: real, y: real)
    requires 0.0 <= x <= 1.0 && 0.0 <= y <= 1.0
    ensures 0.0 <= OverAlpha(x, y) <= 1.0 && OverAlpha(x, y) >= x
    ensures OverAlpha(x, y) == 0.0 <==> x == 0.0 && y == 0.0
    ensures OverAlpha(x, y) == 1.0 <==> x == 1.0 || y == 1.0
  {
    Product(y, 1.0 - x);
    Product(1.0 - x, 1.0 - y);
    Complement(x, y);
  }

  lemma AlphaAssociates(x: real, y: real, z: real)
    ensures OverAlpha(OverAlpha(x, y), z) == OverAlpha(x, OverAlpha(y, z))
  {
  }

  /** The premultiplied channel of a triple, grouped either way. */
  lemma PreAssociates(f: real, fa: real, m: real, ma: real, b: real, ba: real)
    ensures Pre(f, fa, m, ma) + b * ba * (1.0 - OverAlpha(fa, ma)) == f * fa + Pre(m, ma, b, ba) * (1.0 - fa)
  {
    var p, q, x := m * ma, b * ba, 1.0 - fa;
    assert 1.0 - OverAlpha(fa, ma) == x * (1.0 - ma);
    assert q * (x * (1.0 - ma)) == q * (1.0 - ma) * x;
    assert (p + q * (1.0 - ma)) * x == p * x + q * (1.0 - ma) * x;
  }

  /** A channel of the composite, times its alpha. */
  lemma Premultiplied(f: Colour, b: Colour)
    requires OverAlpha(f.a, b.a) != 0.0
    ensures var c := Over(f, b);
            && c.a == OverAlpha(f.a, b.a) && c.r * c.a == Pre(f.r, f.a, b.r, b.a)
            && c.g * c.a == Pre(f.g, f.a, b.g, b.a) && c.b * c.a == Pre(f.b, f.a, b.b, b.a)
  {
    hide Pre, OverAlpha;
    var a := OverAlpha(f.a, b.a);
    Quotient(Pre(f.r, f.a, b.r, b.a), a);
    Quotient(Pre(f.g, f.a, b.g, b.a), a);
    Quotient(Pre(f.b, f.a, b.b, b.a), a);
  }

  // ---- `over` is a monoid ------------------------------------------------------------------------------

  /** A composite with no visible part contributes nothing premultiplied. */
  predicate Contributes(f: Colour, b: Colour) {
    var c := Over(f, b);
    && c.a == OverAlpha(f.a, b.a) && c.r * c.a == Pre(f.r, f.a, b.r, b.a)
    && c.g * c.a == Pre(f.g, f.a, b.g, b.a) && c.b * c.a == Pre(f.b, f.a, b.b, b.a)
  }

  lemma AlwaysContributes(f: Colour, b: Colour)
    requires 0.0 <= f.a <= 1.0 && 0.0 <= b.a <= 1.0
    ensures Contributes(f, b)
  {
    AlphaRange(f.a, b.a);
    if OverAlpha(f.a, b.a) != 0.0 {
      Premultiplied(f, b);
    }
  }

  lemma ChannelAssociates(f: real, fa: real, m: real, ma: real, b: real, ba: real, left: real, right: real)
    requires left * OverAlpha(fa, ma) == Pre(f, fa, m, ma) && right * OverAlpha(ma, ba) == Pre(m, ma, b, ba)
    ensures Pre(left, OverAlpha(fa, ma), b, ba) == Pre(f, fa, right, OverAlpha(ma, ba))
  {
    PreAssociates(f, fa, m, ma, b, ba);
  }

  lemma SameComposite(x: Colour, y: Colour, u: Colour, v: Colour)
    requires OverAlpha(x.a, y.a) == OverAlpha(u.a, v.a)
    requires Pre(x.r, x.a, y.r, y.a) == Pre(u.r, u.a, v.r, v.a) && Pre(x.g, x.a, y.g, y.a) == Pre(u.g, u.a, v.g, v.a)
    requires Pre(x.b, x.a, y.b, y.a) == Pre(u.b, u.a, v.b, v.a)
    ensures Over(x, y) == Over(u, v)
  {
    hide Pre, OverAlpha;
  }

  lemma OverAssociates(f: Colour, m: Colour, b: Colour)
    requires 0.0 <= f.a <= 1.0 && 0.0 <= m.a <= 1.0 && 0.0 <= b.a <= 1.0
    ensures Over(Over(f, m), b) == Over(f, Over(m, b))
  {
    hide Pre, OverAlpha, Over;
    AlwaysContributes(f, m);
    AlwaysContributes(m, b);
    AlphaAssociates(f.a, m.a, b.a);
    var left, right := Over(f, m), Over(m, b);
    ChannelAssociates(f.r, f.a, m.r, m.a, b.r, b.a, left.r, right.r);
    ChannelAssociates(f.g, f.a, m.g, m.a, b.g, b.a, left.g, right.g);
    ChannelAssociates(f.b, f.a, m.b, m.a, b.b, b.a, left.b, right.b);
    SameComposite(left, b, f, right);
  }

  lemma OnlyOne(v: real, a: real)
    requires a != 0.0
    ensures v * a / a == v
  {
    Quotient(v * a, a);
    SameQuotient(v * a / a, v, a);
  }

  /** A transparent layer is the identity on anything visible, from either side. */
  lemma TransparentIsIdentity(c: Colour, t: Colour)
    requires c.a > 0.0 && t.a == 0.0
    ensures Over(t, c) == c && Over(c, t) == c
  {
    OnlyOne(c.r, c.a);
    OnlyOne(c.g, c.a);
    OnlyOne(c.b, c.a);
  }

  /** An opaque layer hides everything behind it. */
  lemma OpaqueHides(c: Colour, b: Colour)
    requires c.a == 1.0
    ensures Over(c, b) == c
  {
  }

  // ---- Painting -------------------------------------------------------------------------------------------

  /** An ancestor's background, where it parses and shows. */
  function Layer(c: Option<Colour>): Option<Colour> {
    if c.Some? && c.value.a > 0.0 then c else None
  }

  /** The stack, nearest layer first, painted from the back onto a canvas. */
  function Painted(stack: seq<Option<Colour>>, canvas: Colour): Colour {
    if stack == [] then canvas
    else
      var behind := Painted(stack[1..], canvas);
      match Layer(stack[0]) case None => behind case Some(c) => Over(c, behind)
  }

  predicate AllValid(stack: seq<Option<Colour>>) {
    forall k :: 0 <= k < |stack| && stack[k].Some? ==> Valid(stack[k].value)
  }

  predicate Opaque(c: Option<Colour>) {
    c.Some? && c.value.a == 1.0
  }

  predicate HasOpaque(stack: seq<Option<Colour>>) {
    exists k :: 0 <= k < |stack| && Opaque(stack[k])
  }

  lemma {:induction false} PaintedAlpha(stack: seq<Option<Colour>>, canvas: Colour)
    requires AllValid(stack) && 0.0 <= canvas.a <= 1.0
    ensures 0.0 <= Painted(stack, canvas).a <= 1.0
    ensures canvas.a == 1.0 ==> Painted(stack, canvas).a == 1.0
    decreases |stack|
  {
    hide OverAlpha;
    if stack != [] {
      PaintedAlpha(stack[1..], canvas);
      if Layer(stack[0]).Some? {
        AlphaRange(stack[0].value.a, Painted(stack[1..], canvas).a);
      }
    }
  }

  /** `bgOf`: the walk up the ancestors. */
  method BgOf(stack: seq<Option<Colour>>) returns (c: Colour)
    requires AllValid(stack)
    ensures HasOpaque(stack) ==> c == Painted(stack, WHITE)
    ensures !HasOpaque(stack) ==> c == WHITE
  {
    hide Over, OverAlpha, Opaque, Painted;
    var n := 0;
    var acc: Option<Colour> := None;
    while n < |stack|
      invariant n <= |stack| && forall k :: 0 <= k < n ==> !Opaque(stack[k])
      invariant acc.None? ==> Painted(stack, WHITE) == Painted(stack[n..], WHITE)
      invariant acc.Some? ==>
                  0.0 < acc.value.a < 1.0 && Painted(stack, WHITE) == Over(acc.value, Painted(stack[n..], WHITE))
    {
      assert stack[n..][1..] == stack[n + 1..];
      PaintedStep(stack[n..], WHITE);
      OpaqueLayer(stack[n]);
      var layer := Layer(stack[n]);
      if layer.Some? {
        var behind := Painted(stack[n + 1..], WHITE);
        Behind(stack, n + 1);
        acc := Accumulate(acc, layer.value, behind, Painted(stack, WHITE));
        if acc.value.a >= 1.0 {
          OpaqueHides(acc.value, behind);
          return acc.value;
        }
      }
      n := n + 1;
    }
    return WHITE;
  }

  lemma PaintedStep(stack: seq<Option<Colour>>, canvas: Colour)
    requires stack != []
    ensures Painted(stack, canvas) ==
            match Layer(stack[0])
            case None => Painted(stack[1..], canvas)
            case Some(c) => Over(c, Painted(stack[1..], canvas))
  {
  }

  lemma OpaqueLayer(c: Option<Colour>)
    ensures Opaque(c) <==> Layer(c).Some? && Layer(c).value.a == 1.0
  {
  }

  lemma Behind(stack: seq<Option<Colour>>, n: nat)
    requires AllValid(stack) && n <= |stack|
    ensures 0.0 <= Painted(stack[n..], WHITE).a <= 1.0
  {
    PaintedAlpha(stack[n..], WHITE);
  }

  /** One more layer: the alpha reaches one exactly when the layer is opaque. */
  method Accumulate(acc: Option<Colour>, layer: Colour, ghost behind: Colour,
      ghost whole: Colour) returns (r: Option<Colour>)
    requires Valid(layer) && layer.a > 0.0 && 0.0 <= behind.a <= 1.0
    requires acc.Some? ==> 0.0 < acc.value.a < 1.0 && whole == Over(acc.value, Over(layer, behind))
    requires acc.None? ==> whole == Over(layer, behind)
    ensures r.Some? && 0.0 < r.value.a <= 1.0 && whole == Over(r.value, behind)
    ensures r.value.a == 1.0 <==> layer.a == 1.0
  {
    if acc.None? {
      return Some(layer);
    }
    AlphaRange(acc.value.a, layer.a);
    OverAssociates(acc.value, layer, behind);
    return Some(Over(acc.value, layer));
  }

  // ---- Without an opaque layer -------------------------------------------------------------------------------

  predicate IsWhite(c: Colour) {
    c.r == 255.0 && c.g == 255.0 && c.b == 255.0
  }

  /** Every layer that shows is white. */
  predicate AllWhite(stack: seq<Option<Colour>>) {
    forall k :: 0 <= k < |stack| && Layer(stack[k]).Some? ==> IsWhite(stack[k].value)
  }

  lemma ChannelOverWhite(f: real, fa: real, b: real)
    requires 0.0 < fa < 1.0 && f <= 255.0 && b <= 255.0
    ensures Pre(f, fa, b, 1.0) <= 255.0
    ensures Pre(f, fa, b, 1.0) == 255.0 <==> f == 255.0 && b == 255.0
  {
    Product(255.0 - f, fa);
    Product(255.0 - b, 1.0 - fa);
    assert Pre(f, fa, b, 1.0) == 255.0 - (255.0 - f) * fa - (255.0 - b) * (1.0 - fa);
  }

  lemma OneLayerOverWhite(c: Colour, behind: Colour)
    requires Valid(c) && 0.0 < c.a < 1.0 && behind.a == 1.0 && Valid(behind)
    ensures Valid(Over(c, behind)) && Over(c, behind).a == 1.0
    ensures Over(c, behind) == WHITE <==> IsWhite(c) && behind == WHITE
  {
    AlphaRange(c.a, 1.0);
    ChannelOverWhite(c.r, c.a, behind.r);
    ChannelOverWhite(c.g, c.a, behind.g);
    ChannelOverWhite(c.b, c.a, behind.b);
  }

  lemma {:induction false} TranslucentOverWhite(stack: seq<Option<Colour>>)
    requires AllValid(stack) && !HasOpaque(stack)
    ensures Valid(Painted(stack, WHITE)) && Painted(stack, WHITE).a == 1.0
    ensures Painted(stack, WHITE) == WHITE <==> AllWhite(stack)
    decreases |stack|
  {
    hide Over, Valid, IsWhite;
    if stack != [] {
      var rest := stack[1..];
      assert forall k :: 0 <= k < |rest| ==> rest[k] == stack[k + 1];
      assert !HasOpaque(rest) && !Opaque(stack[0]);
      TranslucentOverWhite(rest);
      assert AllWhite(stack) <==> (Layer(stack[0]).Some? ==> IsWhite(stack[0].value)) && AllWhite(rest);
      if Layer(stack[0]).Some? {
        BelowOne(stack[0].value);
        OneLayerOverWhite(stack[0].value, Painted(rest, WHITE));
      }
    } else {
      WhiteIsValid();
    }
  }

  lemma BelowOne(c: Colour)
    requires Valid(c) && c.a != 1.0
    ensures c.a < 1.0
  {
  }

  lemma WhiteIsValid()
    ensures Valid(WHITE)
  {
  }

  /**
   The effective background is what painting the stack on a white canvas shows exactly when some layer is
   opaque, or every translucent layer is white: other translucent layers are dropped.
   */
  lemma BackgroundIsExact(stack: seq<Option<Colour>>, c: Colour)
    requires AllValid(stack) && c == (if HasOpaque(stack) then Painted(stack, WHITE) else WHITE)
    ensures c == Painted(stack, WHITE) <==> HasOpaque(stack) || AllWhite(stack)
  {
    hide Painted, AllWhite;
    if !HasOpaque(stack) {
      TranslucentOverWhite(stack);
    }
  }

  /** The smallest case: one half-transparent black layer shows as grey, and is reported as white. */
  lemma DarkLayerDropped()
    ensures var stack := [Some(Colour(0.0, 0.0, 0.0, 0.5))];
            && AllValid(stack) && !HasOpaque(stack)
            && Painted(stack, WHITE) == Colour(127.5, 127.5, 127.5, 1.0) != WHITE
  {
    var stack := [Some(Colour(0.0, 0.0, 0.0, 0.5))];
    assert stack[1..] == [];
  }

  /** What lies behind the first opaque layer never shows. */
  lemma {:induction false} NothingShowsThrough(stack: seq<Option<Colour>>, k: nat, canvas: Colour, other: Colour)
    requires k < |stack| && Opaque(stack[k])
    ensures Painted(stack, canvas) == Painted(stack[..k + 1], other)
    decreases k
  {
    hide Over;
    if k == 0 {
      OpaqueHides(stack[0].value, Painted(stack[1..], canvas));
      OpaqueHides(stack[0].value, other);
      assert stack[..1][1..] == [];
    } else {
      NothingShowsThrough(stack[1..], k - 1, canvas, other);
      assert stack[..k + 1][1..] == stack[1..][..k];
    }
  }

  // ---- The contrast of two luminances -------------------------------------------------------------------

  function Darker(x: real, y: real): real {
    if x < y then x else y
  }

  function Lighter(x: real, y: real): real {
    if x < y then y else x
  }

  predicate Luminance(x: real) {
    0.0 <= x <= 1.0
  }

  /** `ratio`, given the two luminances. */
  function Contrast(x: real, y: real): real
    requires Luminance(x) && Luminance(y)
  {
    (Lighter(x, y) + 0.05) / (Darker(x, y) + 0.05)
  }

  lemma AtMost(n: real, d: real, q: real)
    requires d > 0.0
    ensures n / d <= q <==> n <= q * d
    ensures n / d == q <==> n == q * d
  {
    var p := n / d;
    assert p * d == n;
    if p < q {
      assert (q - p) * d > 0.0;
    } else if p > q {
      assert (p - q) * d > 0.0;
    }
  }

  /**
   Contrast does not depend on which colour is the text; it runs from 1, for equal luminances only, to 21,
   for black on white only.
   */
  lemma ContrastIsCalibrated(x: real, y: real)
    requires Luminance(x) && Luminance(y)
    ensures Contrast(x, y) == Contrast(y, x)
    ensures 1.0 <= Contrast(x, y) <= 21.0
    ensures Contrast(x, y) == 1.0 <==> x == y
    ensures Contrast(x, y) == 21.0 <==> Darker(x, y) == 0.0 && Lighter(x, y) == 1.0
  {
    var n, d := Lighter(x, y) + 0.05, Darker(x, y) + 0.05;
    AtMost(n, d, 1.0);
    AtMost(n, d, 21.0);
  }

  /** Moving two luminances further apart never lowers their contrast. */
  lemma ContrastGrows(lo: real, hi: real, lo2: real, hi2: real)
    requires Luminance(lo2) && Luminance(hi2) && lo2 <= lo <= hi <= hi2
    ensures Contrast(lo, hi) <= Contrast(lo2, hi2)
  {
    var n, d, n2, d2 := hi + 0.05, lo + 0.05, hi2 + 0.05, lo2 + 0.05;
    assert Contrast(lo, hi) == n / d && Contrast(lo2, hi2) == n2 / d2;
    AtMost(n2, d2, n2 / d2);
    AtMost(n, d, n2 / d2);
    FurtherApart(n2 / d2, d, d2);
  }

  lemma FurtherApart(q: real, d: real, d2: real)
    requires q >= 0.0 && d >= d2
    ensures q * d >= q * d2
  {
  }
}
