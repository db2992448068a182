/** JSON number tokens (RFC 8259, section 6) and the decimal writer behind `json.dumps` of an int. */
module JsonNumbers {
  import opened Text

  datatype Number = Int(n: int) | Float(r: real)

  predicate IsDigit(c: Code) {
    ZERO <= c <= NINE
  }

  /** The characters the source's number loop swallows. */
  predicate IsNumChar(c: Code) {
    IsDigit(c) || c == MINUS || c == PLUS || c == DOT || c == LOWER_E || c == UPPER_E
  }

  predicate AllNumChars(t: Text) {
    forall k :: 0 <= k < |t| ==> IsNumChar(t[k])
  }

  predicate AllDigits(t: Text) {
    forall k :: 0 <= k < |t| ==> IsDigit(t[k])
  }

  function DigitsEnd(t: Text, i: nat): (j: nat)
    requires i <= |t|
    ensures i <= j <= |t|
    ensures forall k :: i <= k < j ==> IsDigit(t[k])
    ensures AllDigits(t[i..j])
    ensures j < |t| ==> !IsDigit(t[j])
    decreases |t| - i
  {
    if i < |t| && IsDigit(t[i]) then DigitsEnd(t, i + 1) else i
  }

  function DigitsValue(t: Text): nat
    requires AllDigits(t)
  {
    if t == [] then 0
    else
      assert IsDigit(t[|t| - 1]);
      DigitsValue(t[..|t| - 1]) * 10 + (t[|t| - 1] - ZERO)
  }

  function Power10(e: int): real
    decreases if e < 0 then -e else e
  {
    if e == 0 then 1.0 else if e > 0 then 10.0 * Power10(e - 1) else Power10(e + 1) / 10.0
  }

  /** The digits as a number, with the point moved by `e` places. */
  function Decimal(digits: Text, e: int): real
    requires AllDigits(digits)
  {
    DigitsValue(digits) as real * Power10(e)
  }

  /** The exponent part at `i`: its value and its end; no exponent counts as zero. */
  function Exponent(t: Text, i: nat): (r: Option<(int, nat)>)
    requires i <= |t|
    ensures r.Some? ==> i <= r.value.1 <= |t|
    ensures r.Some? ==> forall k :: i <= k < r.value.1 ==> IsNumChar(t[k])
  {
    if i == |t| || (t[i] != LOWER_E && t[i] != UPPER_E) then Some((0, i))
    else
      var j := if i + 1 < |t| && (t[i + 1] == PLUS || t[i + 1] == MINUS) then i + 2 else i + 1;
      var k := DigitsEnd(t, j);
      if k == j then None
      else
        var e: int := DigitsValue(t[j..k]);
        Some((if t[i + 1] == MINUS then -e else e, k))
  }

  /** What `json.loads` makes of a whole number token; exact reals stand for floats. */
  function NumberValue(t: Text): (r: Option<Number>)
    ensures r.Some? ==> t != [] && AllNumChars(t) && (t[0] == MINUS || IsDigit(t[0]))
  {
    var i0 := if t != [] && t[0] == MINUS then 1 else 0;
    var i1 := DigitsEnd(t, i0);
    if i1 == i0 || (t[i0] == ZERO && i1 != i0 + 1) then None
    else
      var whole: int := DigitsValue(t[i0..i1]);
      if i1 == |t| then Some(Int(if i0 == 1 then -whole else whole))
      else
        var i2 := if t[i1] == DOT then DigitsEnd(t, i1 + 1) else i1;
        if t[i1] == DOT && i2 == i1 + 1 then None
        else
          var places := if t[i1] == DOT then i2 - i1 - 1 else 0;
          var digits := if t[i1] == DOT then t[i0..i1] + t[i1 + 1..i2] else t[i0..i1];
          match Exponent(t, i2)
          case None => None
          case Some((e, end)) =>
            if end != |t| then None
            else
              var r := Decimal(digits, e - places);
              Some(Float(if i0 == 1 then -r else r))
  }

  // ---- Writing an int ----------------------------------------------------------------------

  function WriteNat(n: nat): (t: Text)
    ensures t != [] && AllDigits(t)
    ensures t[0] == ZERO ==> |t| == 1
    ensures n > 0 ==> t[0] != ZERO
    ensures DigitsValue(t) == n
  {
    if n < 10 then
      var t: Text := [ZERO + n];
      assert t[..0] == [];
      t
    else
      var t: Text := WriteNat(n / 10) + [ZERO + n % 10];
      assert t[..|t| - 1] == WriteNat(n / 10);
      t
  }

  function WriteInt(n: int): Text {
    if n < 0 then [MINUS] + WriteNat(-n) else WriteNat(n)
  }

  lemma {:induction false} DigitsEndAll(t: Text, i: nat)
    requires i <= |t| && forall k :: i <= k < |t| ==> IsDigit(t[k])
    ensures DigitsEnd(t, i) == |t|
    decreases |t| - i
  {
    if i < |t| {
      DigitsEndAll(t, i + 1);
    }
  }

  /** Every Python int survives `json.dumps` followed by `json.loads`. */
  lemma IntRoundTrip(n: int)
    ensures NumberValue(WriteInt(n)) == Some(Int(n))
  {
    hide Exponent, Decimal;
    var t := WriteInt(n);
    var i0 := if n < 0 then 1 else 0;
    assert t[i0..] == WriteNat(if n < 0 then -n else n);
    assert forall k :: i0 <= k < |t| ==> IsDigit(t[k]) by {
      assert forall k :: i0 <= k < |t| ==> t[k] == t[i0..][k - i0];
    }
    DigitsEndAll(t, i0);
    assert t[i0..|t|] == t[i0..];
  }

  // ---- What a float token means ------------------------------------------------------------

  function Pow10(n: nat): nat {
    if n == 0 then 1 else 10 * Pow10(n - 1)
  }

  lemma {:induction false} Power10IsPow(n: nat)
    ensures var e: int := n; Power10(e) == Pow10(n) as real && Power10(-e) * Pow10(n) as real == 1.0 && Pow10(n) > 0
    decreases n
  {
    if n > 0 {
      Power10IsPow(n - 1);
      var e: int := n - 1;
      TenthTimes(Power10(-e), Pow10(n - 1) as real);
    }
  }

  lemma TenthTimes(x: real, y: real)
    ensures (x / 10.0) * (10.0 * y) == x * y
  {
  }

  lemma Shift(a: nat, p: nat, b: nat, d: nat)
    ensures (a * p + b) * 10 + d == a * (10 * p) + (b * 10 + d)
  {
  }

  /** Digits after digits: each one moves what stands before it by a factor of ten. */
  lemma {:induction false} DigitsJoined(s: Text, t: Text)
    requires AllDigits(s) && AllDigits(t)
    ensures AllDigits(s + t) && DigitsValue(s + t) == DigitsValue(s) * Pow10(|t|) + DigitsValue(t)
    decreases |t|
  {
    var all := s + t;
    assert forall k :: 0 <= k < |all| ==> all[k] == if k < |s| then s[k] else t[k - |s|];
    if t == [] {
      assert all == s;
    } else {
      var before := t[..|t| - 1];
      DigitsJoined(s, before);
      assert all[..|all| - 1] == s + before;
      Shift(DigitsValue(s), Pow10(|before|), DigitsValue(before), t[|t| - 1] - ZERO);
    }
  }

  lemma {:induction false} DigitsEndAt(t: Text, i: nat, j: nat)
    requires i <= j <= |t| && AllDigits(t[i..j]) && (j < |t| ==> !IsDigit(t[j]))
    ensures DigitsEnd(t, i) == j
    decreases j - i
  {
    if i < j {
      assert IsDigit(t[i..j][0]) && t[i + 1..j] == t[i..j][1..];
      DigitsEndAt(t, i + 1, j);
    }
  }

  /** An exponent part, or nothing when there are no digits. */
  function ExponentPart(letter: Code, sign: Text, digits: Text): Text {
    if digits == [] then [] else [letter] + sign + digits
  }

  function FractionPart(fraction: Text): Text {
    if fraction == [] then [] else [46] + fraction
  }

  function Signed(sign: Text, digits: Text): int
    requires AllDigits(digits)
  {
    var n: int := DigitsValue(digits);
    if sign == [45] then -n else n
  }

  lemma ExponentIs(t: Text, i: nat, letter: Code, sign: Text, digits: Text)
    requires i <= |t| && t[i..] == ExponentPart(letter, sign, digits) && AllDigits(digits)
    requires letter in {69, 101} && sign in {[], [43], [45]}
    ensures Exponent(t, i) == Some((Signed(sign, digits), |t|))
  {
    if digits == [] {
      assert |t| == i && DigitsValue(digits) == 0;
    } else {
      var j := i + 1 + |sign|;
      assert t[i] == t[i..][0] && t[i + 1] == t[i..][1];
      assert t[j..] == t[i..][1 + |sign|..] == digits && t[j..|t|] == digits;
      assert IsDigit(digits[0]) && digits[0] == t[j];
      DigitsEndAt(t, j, |t|);
    }
  }

  /**
   A float token means the decimal fraction it spells: its digits, the point moved by the exponent, and the sign.
   */
  lemma FloatIsDecimal(negative: bool, whole: Text, fraction: Text, letter: Code, sign: Text, digits: Text)
    requires whole != [] && AllDigits(whole) && (whole[0] == 48 ==> |whole| == 1) && AllDigits(fraction)
    requires letter in {69, 101} && sign in {[], [43], [45]} && AllDigits(digits) && (fraction != [] || digits != [])
    ensures AllDigits(whole + fraction)
    ensures var t := (if negative then [45] else []) + whole + FractionPart(fraction) +
                     ExponentPart(letter, sign, digits);
            var r := Decimal(whole + fraction, Signed(sign, digits) - |fraction|);
            NumberValue(t) == Some(Float(if negative then -r else r))
  {
    hide DigitsEnd, Exponent, DigitsValue, NumberValue, Signed, Decimal;
    var head: Text := if negative then [45] else [];
    var frac, exp := FractionPart(fraction), ExponentPart(letter, sign, digits);
    var t := head + whole + frac + exp;
    var i0, i1, i2 := |head|, |head| + |whole|, |head| + |whole| + |frac|;
    FourParts(head, whole, frac, exp);
    assert IsDigit(whole[0]);
    DigitsEndAt(t, i0, i1);
    if fraction != [] {
      assert t[i1 + 1..i2] == frac[1..] == fraction;
      DigitsEndAt(t, i1 + 1, i2);
    }
    ExponentIs(t, i2, letter, sign, digits);
    DigitsJoined(whole, fraction);
    FloatOf(t, negative, whole, fraction, i0, i1, i2, Signed(sign, digits));
  }

  lemma FourParts(a: Text, b: Text, c: Text, d: Text)
    ensures var t := a + b + c + d;
            && t[|a|..|a| + |b|] == b && t[|a| + |b|..|a| + |b| + |c|] == c && t[|a| + |b| + |c|..] == d
            && (a != [] ==> t[0] == a[0]) && (b != [] ==> t[|a|] == b[0])
            && (c != [] ==> t[|a| + |b|] == c[0] && t[|a| + |b| + 1..|a| + |b| + |c|] == c[1..])
            && (d != [] ==> t[|a| + |b| + |c|] == d[0])
  {
  }

  /** The parts of the token where the reader finds them. */
  lemma FloatOf(t: Text, negative: bool, whole: Text, fraction: Text, i0: nat, i1: nat, i2: nat, e: int)
    requires i0 < i1 <= i2 <= |t| && i1 < |t| && i0 == (if negative then 1 else 0) && (t[0] == 45 <==> negative)
    requires t[i0..i1] == whole && DigitsEnd(t, i0) == i1 && (t[i0] == 48 ==> i1 == i0 + 1)
    requires t[i1] == 46 <==> fraction != []
    requires if fraction == [] then i2 == i1
             else i2 > i1 + 1 && t[i1 + 1..i2] == fraction && DigitsEnd(t, i1 + 1) == i2
    requires AllDigits(whole + fraction) && Exponent(t, i2) == Some((e, |t|))
    ensures var r := Decimal(whole + fraction, e - |fraction|);
            NumberValue(t) == Some(Float(if negative then -r else r))
  {
    hide DigitsEnd, Exponent, Decimal;
    var places := if t[i1] == DOT then i2 - i1 - 1 else 0;
    assert places == |fraction|;
    var all := if t[i1] == DOT then t[i0..i1] + t[i1 + 1..i2] else t[i0..i1];
    assert whole + fraction == all;
  }
}
