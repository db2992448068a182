/** Python text as sequences of code points, and the small helpers every JSON module shares. */
module Text {

  /** A Python code point.  Lone surrogates are included: a decoded JSON escape may produce one. */
  type Code = c: int | 0 <= c < 0x110000

  type Text = seq<Code>

  datatype Option<+T> = None | Some(value: T)

  /** `SurgicalError` is the declared refusal; `ValueError` is what `json.loads` raises on a token. */
  datatype Error = SurgicalError | ValueError

  datatype Result<+T> = Ok(value: T) | Err(error: Error)

  const TAB: Code := 9
  const LF: Code := 10
  const CR: Code := 13
  const SPACE: Code := 32
  const QUOTE: Code := 34
  const PLUS: Code := 43
  const COMMA: Code := 44
  const MINUS: Code := 45
  const DOT: Code := 46
  const SLASH: Code := 47
  const ZERO: Code := 48
  const NINE: Code := 57
  const COLON: Code := 58
  const UPPER_E: Code := 69
  const LBRACKET: Code := 91
  const BACKSLASH: Code := 92
  const RBRACKET: Code := 93
  const LOWER_E: Code := 101
  const LOWER_U: Code := 117
  const LBRACE: Code := 123
  const RBRACE: Code := 125

  predicate IsWs(c: Code) {
    c == SPACE || c == TAB || c == LF || c == CR
  }

  /** `t` stands in `s` at offset `i`. */
  predicate At(s: Text, i: nat, t: Text)
    decreases |t|
  {
    if t == [] then i <= |s| else i < |s| && s[i] == t[0] && At(s, i + 1, t[1..])
  }

  lemma {:induction false} AtIsSlice(s: Text, i: nat, t: Text)
    ensures At(s, i, t) <==> i + |t| <= |s| && s[i..i + |t|] == t
    decreases |t|
  {
    if t != [] {
      AtIsSlice(s, i + 1, t[1..]);
      if i + |t| <= |s| {
        assert s[i..i + |t|] == [s[i]] + s[i + 1..i + |t|];
        assert t == [t[0]] + t[1..];
      }
    }
  }

  lemma AtSlice(s: Text, i: nat, j: nat)
    requires i <= j <= |s|
    ensures At(s, i, s[i..j])
  {
    AtIsSlice(s, i, s[i..j]);
  }

  lemma {:induction false} AtAppend(s: Text, i: nat, a: Text, b: Text)
    ensures At(s, i, a + b) <==> At(s, i, a) && At(s, i + |a|, b)
    ensures At(s, i, a) ==> i + |a| <= |s|
    decreases |a|
  {
    if a == [] {
      assert a + b == b;
      AtIsSlice(s, i, b);
    } else {
      assert (a + b)[1..] == a[1..] + b;
      AtAppend(s, i + 1, a[1..], b);
    }
    AtIsSlice(s, i, a);
  }

  lemma SliceOfSlice(s: Text, i: nat, j: nat, a: nat, b: nat)
    requires i <= j <= |s| && a <= b <= j - i
    ensures s[i..j][a..b] == s[i + a..i + b]
  {
    var l, r := s[i..j][a..b], s[i + a..i + b];
    assert |l| == |r|;
    forall k | 0 <= k < |l| ensures l[k] == r[k] {
      assert l[k] == s[i..j][a + k] == s[i + (a + k)];
    }
  }

  /** The first offset from `i` on that holds no whitespace. */
  function WsEnd(s: Text, i: nat): (j: nat)
    requires i <= |s|
    ensures i <= j <= |s|
    ensures j < |s| ==> !IsWs(s[j])
    decreases |s| - i
  {
    if i < |s| && IsWs(s[i]) then WsEnd(s, i + 1) else i
  }

  predicate Blank(s: Text, i: nat, j: nat) {
    i <= j <= |s| && forall k :: i <= k < j ==> IsWs(s[k])
  }

  lemma {:induction false} WsEndIsBlank(s: Text, i: nat)
    requires i <= |s|
    ensures Blank(s, i, WsEnd(s, i))
    decreases |s| - i
  {
    if i < |s| && IsWs(s[i]) {
      WsEndIsBlank(s, i + 1);
    }
  }

  /** Whitespace followed by something else has exactly one place to stop. */
  lemma {:induction false} WsEndAfterBlank(s: Text, i: nat, j: nat)
    requires Blank(s, i, j) && (j < |s| ==> !IsWs(s[j]))
    ensures WsEnd(s, i) == j
    decreases j - i
  {
    if i < j {
      WsEndAfterBlank(s, i + 1, j);
    }
  }

  method SkipWs(s: Text, i: nat) returns (j: nat)
    requires i <= |s|
    ensures j == WsEnd(s, i)
  {
    j := i;
    while j < |s| && IsWs(s[j])
      invariant i <= j <= |s|
      invariant WsEnd(s, i) == WsEnd(s, j)
    {
      j := j + 1;
    }
  }
}
