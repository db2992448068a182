/** The two identifier bases, and replacing one by the other in a decoded string. */
module IdentifierText {
  import opened Text

  const OLD: Text := [
    104, 116, 116, 112, 115, 58, 47, 47, 115, 111, 110, 115, 116, 101, 110, 103, 46, 100, 97, 109, 105, 101, 110,
    114, 105, 101, 104, 108, 46, 99, 111, 109, 47, 115, 112, 105, 110, 101, 47]

  const NEW: Text := [
    104, 116, 116, 112, 115, 58, 47, 47, 108, 101, 103, 97, 108, 112, 114, 97, 99, 116, 105, 99, 117, 109, 46, 111,
    114, 103, 47, 115, 112, 105, 110, 101, 47]

  function Codes(s: string): Text {
    seq(|s|, k requires 0 <= k < |s| => s[k] as int)
  }

  lemma BasesByName()
    ensures OLD == Codes("https://sonsteng.damienriehl.com/spine/")
    ensures NEW == Codes("https://legalpracticum.org/spine/")
  {
  }

  const LETTER_H: Code := 104

  predicate StartsOld(s: Text) {
    |OLD| <= |s| && s[..|OLD|] == OLD
  }

  /** `s.replace(OLD, NEW)`. */
  function Replace(s: Text): Text
    decreases |s|
  {
    if s == [] then []
    else if StartsOld(s) then NEW + Replace(s[|OLD|..])
    else [s[0]] + Replace(s[1..])
  }

  /** `s.count(OLD)`: matches that do not overlap, from the left. */
  function Count(s: Text): nat
    decreases |s|
  {
    if s == [] then 0
    else if StartsOld(s) then 1 + Count(s[|OLD|..])
    else Count(s[1..])
  }

  /** The number of places at which the old base stands. */
  function Occurrences(s: Text): nat
    decreases |s|
  {
    if s == [] then 0 else (if StartsOld(s) then 1 else 0) + Occurrences(s[1..])
  }

  // ---- The two bases do not overlap themselves or each other ------------------------------------------

  lemma OldLetters()
    ensures |OLD| == 39 && OLD[0] == LETTER_H && OLD[1] == 116 && OLD[26] == LETTER_H && OLD[27] == 108 && OLD[8] == 115
    ensures forall j :: 1 <= j < |OLD| && OLD[j] == LETTER_H ==> j == 26
  {
  }

  lemma NewLetters()
    ensures |NEW| == 33 && NEW[0] == LETTER_H && NEW[1] == 116 && NEW[8] == 108
    ensures forall j :: 1 <= j < |NEW| ==> NEW[j] != LETTER_H
  {
  }

  /** `t` stands at the front of `s`. */
  predicate Leads(t: Text, s: Text) {
    |t| <= |s| && s[..|t|] == t
  }

  lemma LeadsTail(t: Text, s: Text)
    requires t != []
    ensures Leads(t, s) <==> s != [] && s[0] == t[0] && Leads(t[1..], s[1..])
  {
    if s != [] && |t| <= |s| {
      assert s[..|t|] == [s[0]] + s[1..][..|t| - 1];
      assert t == [t[0]] + t[1..];
    }
  }

  lemma LeadsAt(t: Text, s: Text, k: nat)
    ensures Leads(t, s) && k < |t| ==> k < |s| && s[k] == t[k]
  {
    if Leads(t, s) && k < |t| {
      assert s[..|t|][k] == s[k];
    }
  }

  /** Inside the old base, neither base can begin and run to the end. */
  lemma NoOverlap(j: nat, rest: Text)
    requires 1 <= j < |OLD|
    ensures !Leads(OLD[j..], NEW + rest)
    ensures !Leads(OLD[j..], OLD + rest)
  {
    hide NEW, OLD;
    OldLetters();
    NewLetters();
    var t := OLD[j..];
    assert t[0] == OLD[j] && (|t| > 1 ==> t[1] == OLD[j + 1]);
    LeadsAt(t, NEW + rest, 0);
    LeadsAt(t, NEW + rest, 1);
    LeadsAt(t, OLD + rest, 0);
    LeadsAt(t, OLD + rest, 1);
  }

  /** Replacement does not complete a partial match: the tail of a base was there before. */
  lemma {:induction false} TailWasThere(j: nat, x: Text)
    requires 1 <= j <= |OLD| && Leads(OLD[j..], Replace(x))
    ensures Leads(OLD[j..], x)
    decreases |x|
  {
    hide NEW, OLD;
    if j < |OLD| && x != [] {
      if StartsOld(x) {
        NoOverlap(j, Replace(x[|OLD|..]));
      } else {
        var t := OLD[j..];
        LeadsTail(t, Replace(x));
        assert t[1..] == OLD[j + 1..];
        assert Replace(x)[1..] == Replace(x[1..]);
        TailWasThere(j + 1, x[1..]);
        LeadsTail(t, x);
      }
    }
  }

  /** The old base never begins strictly inside a copy of the new one. */
  lemma NoOldInNew(p: nat, rest: Text)
    requires p < |NEW|
    ensures !Leads(OLD, NEW[p..] + rest)
  {
    hide NEW, OLD;
    OldLetters();
    NewLetters();
    var s := NEW[p..] + rest;
    assert s[0] == NEW[p] && (p == 0 ==> s[8] == NEW[8]);
    LeadsAt(OLD, s, 0);
    LeadsAt(OLD, s, 8);
  }

  lemma {:induction false} NoneInNew(p: nat, rest: Text)
    requires p <= |NEW|
    ensures Occurrences(NEW[p..] + rest) == Occurrences(rest)
    decreases |NEW| - p
  {
    hide NEW, OLD;
    var s := NEW[p..] + rest;
    if p < |NEW| {
      NoOldInNew(p, rest);
      assert s[1..] == NEW[p + 1..] + rest;
      NoneInNew(p + 1, rest);
    } else {
      assert s == rest;
    }
  }

  lemma {:induction false} NoneInsideOld(j: nat, rest: Text)
    requires 1 <= j <= |OLD|
    ensures Occurrences(OLD[j..] + rest) == Occurrences(rest)
    decreases |OLD| - j
  {
    hide NEW, OLD;
    var s := OLD[j..] + rest;
    if j < |OLD| {
      NoOldInsideOld(j, rest);
      assert s[1..] == OLD[j + 1..] + rest;
      NoneInsideOld(j + 1, rest);
    } else {
      assert s == rest;
    }
  }

  lemma NoOldInsideOld(j: nat, rest: Text)
    requires 1 <= j < |OLD|
    ensures !Leads(OLD, OLD[j..] + rest)
  {
    hide NEW, OLD;
    OldLetters();
    var s := OLD[j..] + rest;
    assert s[0] == OLD[j] && (j + 1 < |OLD| ==> s[1] == OLD[j + 1]);
    LeadsAt(OLD, s, 0);
    LeadsAt(OLD, s, 1);
  }

  /** Counting without overlap counts every occurrence. */
  lemma {:induction false} CountIsOccurrences(s: Text)
    ensures Count(s) == Occurrences(s)
    decreases |s|
  {
    hide NEW, OLD;
    OldLetters();
    if s != [] {
      if StartsOld(s) {
        CountIsOccurrences(s[|OLD|..]);
        NoneInsideOld(1, s[|OLD|..]);
        assert s[1..] == OLD[1..] + s[|OLD|..] by {
          assert s == OLD + s[|OLD|..];
        }
      } else {
        CountIsOccurrences(s[1..]);
      }
    }
  }

  /** After the replacement no old base is left, not even across the seams. */
  lemma {:induction false} NoneLeft(s: Text)
    ensures Occurrences(Replace(s)) == 0
    decreases |s|
  {
    hide NEW, OLD;
    OldLetters();
    NewLetters();
    if s != [] {
      var r := Replace(s);
      if StartsOld(s) {
        NoneLeft(s[|OLD|..]);
        NoneInNew(0, Replace(s[|OLD|..]));
        assert NEW[0..] == NEW;
      } else {
        NoneLeft(s[1..]);
        assert r[1..] == Replace(s[1..]);
        if StartsOld(r) {
          LeadsTail(OLD, r);
          TailWasThere(1, s[1..]);
          LeadsTail(OLD, s);
        }
      }
    }
  }
}
