/**
 Rewriting one JSON string token without normalising its unrelated escapes: only the raw text of matches
 of the old base is replaced.
 */
module IdentifierTokens {
  import opened Text
  import opened JsonStrings
  import opened IdentifierText

  /** The raw width of the leading characters of `b` that decode to `t`. */
  function MatchWidth(b: Text, t: Text): (w: Option<nat>)
    ensures w.Some? ==> w.value <= |b| && (t != [] ==> 0 < w.value)
    decreases |t|
  {
    if t == [] then Some(0)
    else
      match FirstUnit(b)
      case None => None
      case Some(u) =>
        if u.code != t[0] then None
        else
          match MatchWidth(b[u.width..], t[1..])
          case None => None
          case Some(w) => Some(u.width + w)
  }

  /** The token body with every escaped or plain spelling of the old base replaced by the new one. */
  function RewriteBody(b: Text): Text
    decreases |b|
  {
    if b == [] then []
    else if MatchWidth(b, OLD).Some? then NEW + RewriteBody(b[MatchWidth(b, OLD).value..])
    else
      match FirstUnit(b)
      case None => b
      case Some(u) => b[..u.width] + RewriteBody(b[u.width..])
  }

  // ---- Matching raw text is matching decoded text -----------------------------------------------------

  lemma DecodeStep(b: Text)
    requires b != [] && Decode(b).Some?
    ensures FirstUnit(b).Some? && Decode(b[FirstUnit(b).value.width..]).Some?
    ensures Decode(b).value == [FirstUnit(b).value.code] + Decode(b[FirstUnit(b).value.width..]).value
  {
    hide FirstUnit;
  }

  lemma {:induction false} MatchIsLead(b: Text, t: Text)
    requires Decode(b).Some?
    ensures MatchWidth(b, t).Some? <==> Leads(t, Decode(b).value)
    ensures MatchWidth(b, t).Some? ==>
              Decode(b[MatchWidth(b, t).value..]) == Some(Decode(b).value[|t|..])
    decreases |t|
  {
    hide FirstUnit, Decode;
    var s := Decode(b).value;
    if t == [] {
      assert b[0..] == b && s[0..] == s;
    } else if b == [] {
      NothingDecodes();
    } else {
      DecodeStep(b);
      var u := FirstUnit(b).value;
      var rest := b[u.width..];
      MatchIsLead(rest, t[1..]);
      assert s[1..] == Decode(rest).value;
      LeadsTail(t, s);
      if MatchWidth(b, t).Some? {
        var w := MatchWidth(rest, t[1..]).value;
        assert b[u.width + w..] == rest[w..];
        assert s[|t|..] == s[1..][|t| - 1..];
      }
    }
  }

  lemma NothingDecodes()
    ensures Decode([]) == Some([]) && FirstUnit([]).None?
  {
  }

  // ---- Characters stay whole ---------------------------------------------------------------------------

  /** `r` may follow a character that `b` followed: no new surrogate pair can form at the seam. */
  predicate SafeAfter(b: Text, r: Text) {
    var before, after := UnicodeEscape(b, 0), UnicodeEscape(r, 0);
    after.Some? && IsLow(after.value) ==> before == after
  }

  lemma UnitKept(b: Text, r: Text)
    requires FirstUnit(b).Some?
    requires SafeAfter(b[FirstUnit(b).value.width..], r)
    ensures FirstUnit(b[..FirstUnit(b).value.width] + r) == FirstUnit(b)
  {
    var u := FirstUnit(b).value;
    var c := b[..u.width] + r;
    assert c[0] == b[0] && (u.width > 1 ==> c[1] == b[1]);
    if u.width >= 6 {
      EscapeKept(b, c, 0);
      if u.width == 12 {
        EscapeKept(b, c, 6);
      } else {
        EscapeAfter(b, b[6..]);
        EscapeAfter(c, r);
      }
    }
  }

  lemma EscapeKept(b: Text, c: Text, i: nat)
    requires i + 6 <= |b| && i + 6 <= |c| && b[..i + 6] == c[..i + 6]
    ensures UnicodeEscape(b, i) == UnicodeEscape(c, i)
  {
    assert forall k :: 0 <= k < i + 6 ==> b[k] == b[..i + 6][k] == c[..i + 6][k] == c[k];
  }

  lemma EscapeAfter(b: Text, r: Text)
    requires 6 <= |b| && b[6..] == r
    ensures UnicodeEscape(b, 6) == UnicodeEscape(r, 0)
  {
    assert |r| >= 6 ==> forall k :: 0 <= k < 6 ==> r[k] == b[6 + k];
  }

  /** The rewritten rest starts with the same escape as the rest, or with no low surrogate. */
  lemma RewrittenIsSafe(b: Text)
    requires Decode(b).Some?
    ensures SafeAfter(b, RewriteBody(b))
  {
    hide Decode, MatchWidth, NEW, OLD;
    if b != [] {
      DecodeStep(b);
      var u := FirstUnit(b).value;
      var r := RewriteBody(b);
      if MatchWidth(b, OLD).Some? {
        NewLetters();
        assert r[0] == NEW[0];
      } else {
        assert r[0] == b[0] && (u.width > 1 ==> r[1] == b[1]);
        if u.width >= 6 {
          assert r[..6] == b[..6];
          EscapeKept(b, r, 0);
        }
      }
    }
  }

  lemma {:induction false} PlainDecodes(p: nat, r: Text)
    requires p <= |NEW| && Decode(r).Some?
    ensures Decode(NEW[p..] + r) == Some(NEW[p..] + Decode(r).value)
    decreases |NEW| - p
  {
    hide NEW, Decode;
    var b := NEW[p..] + r;
    if p < |NEW| {
      PlainLetter(p);
      PlainDecodes(p + 1, r);
      assert b[1..] == NEW[p + 1..] + r;
      assert NEW[p..] == [NEW[p]] + NEW[p + 1..];
      DecodePlain(b);
      assert NEW[p..] + Decode(r).value == [NEW[p]] + (NEW[p + 1..] + Decode(r).value);
    } else {
      assert b == r && NEW[p..] + Decode(r).value == Decode(r).value;
    }
  }

  lemma PlainLetter(p: nat)
    requires p < |NEW|
    ensures NEW[p] >= 32 && NEW[p] != QUOTE && NEW[p] != BACKSLASH
  {
  }

  lemma DecodePlain(b: Text)
    requires b != [] && b[0] >= 32 && b[0] != QUOTE && b[0] != BACKSLASH && Decode(b[1..]).Some?
    ensures Decode(b) == Some([b[0]] + Decode(b[1..]).value)
  {
  }

  lemma DecodeJoin(b: Text, u: Unit)
    requires FirstUnit(b) == Some(u) && Decode(b[u.width..]).Some?
    ensures Decode(b) == Some([u.code] + Decode(b[u.width..]).value)
  {
    hide FirstUnit;
  }

  /** Rewriting the raw token and replacing in the decoded string are the same thing. */
  lemma {:induction false} RewriteDecodes(b: Text)
    requires Decode(b).Some?
    ensures Decode(RewriteBody(b)) == Some(Replace(Decode(b).value))
    decreases |b|
  {
    hide FirstUnit, Decode, MatchWidth, NEW, OLD;
    OldLetters();
    NothingDecodes();
    if b != [] {
      MatchIsLead(b, OLD);
      DecodeStep(b);
      if MatchWidth(b, OLD).Some? {
        var rest := b[MatchWidth(b, OLD).value..];
        RewriteDecodes(rest);
        PlainDecodes(0, RewriteBody(rest));
        assert NEW[0..] == NEW;
      } else {
        var u := FirstUnit(b).value;
        var rest := b[u.width..];
        RewriteDecodes(rest);
        RewrittenIsSafe(rest);
        UnitKept(b, RewriteBody(rest));
        var r := b[..u.width] + RewriteBody(rest);
        assert r[u.width..] == RewriteBody(rest);
        DecodeJoin(r, u);
        assert Decode(b).value[1..] == Decode(rest).value;
      }
    }
  }

  /** A token without the old base is left exactly as it was spelled. */
  lemma {:induction false} NothingToRewrite(b: Text)
    requires Decode(b).Some? && Count(Decode(b).value) == 0
    ensures RewriteBody(b) == b
    decreases |b|
  {
    hide FirstUnit, Decode, MatchWidth, OLD;
    OldLetters();
    if b != [] {
      MatchIsLead(b, OLD);
      DecodeStep(b);
      var u := FirstUnit(b).value;
      assert Decode(b).value[1..] == Decode(b[u.width..]).value;
      NothingToRewrite(b[u.width..]);
      assert b == b[..u.width] + b[u.width..];
    }
  }
}
