/** Both bases counted: a replacement turns every old base into a new one and disturbs none that was there. */
module IdentifierBases {
  import opened Text
  import opened IdentifierText

  datatype Base = Old | New

  function Spelled(b: Base): (t: Text)
    ensures t != []
  {
    match b case Old => OldLetters(); OLD case New => NewLetters(); NEW
  }

  /** `s.count(base)`: matches that do not overlap, from the left. */
  function CountOf(s: Text, b: Base): nat
    decreases |s|
  {
    if s == [] then 0
    else if Leads(Spelled(b), s) then 1 + CountOf(s[|Spelled(b)|..], b)
    else CountOf(s[1..], b)
  }

  lemma {:induction false} CountOfOld(s: Text)
    ensures CountOf(s, Old) == Count(s)
    decreases |s|
  {
    hide OLD;
    OldLetters();
    if s != [] {
      CountOfOld(if StartsOld(s) then s[|OLD|..] else s[1..]);
    }
  }

  // ---- The new base does not overlap itself or the old one --------------------------------------------------

  lemma NoNewInOld(j: nat, rest: Text)
    requires j < |OLD|
    ensures !Leads(NEW, OLD[j..] + rest)
  {
    hide NEW, OLD;
    OldLetters();
    NewLetters();
    var s := OLD[j..] + rest;
    assert s[0] == OLD[j] && (j == 26 ==> s[1] == OLD[27]) && (j == 0 ==> s[8] == OLD[8]);
    LeadsAt(NEW, s, 0);
    LeadsAt(NEW, s, 1);
    LeadsAt(NEW, s, 8);
  }

  /** Past the rest of a base only what follows it counts. */
  lemma {:induction false} SkipOld(j: nat, rest: Text)
    requires j <= |OLD|
    ensures CountOf(OLD[j..] + rest, New) == CountOf(rest, New)
    decreases |OLD| - j
  {
    hide NEW, OLD;
    var s := OLD[j..] + rest;
    if j < |OLD| {
      NoNewInOld(j, rest);
      assert s[1..] == OLD[j + 1..] + rest;
      SkipOld(j + 1, rest);
    } else {
      assert s == rest;
    }
  }

  /** A replacement leaves a new base as it is. */
  lemma {:induction false} OverNew(j: nat, rest: Text)
    requires j <= |NEW|
    ensures Replace(NEW[j..] + rest) == NEW[j..] + Replace(rest) && Count(NEW[j..] + rest) == Count(rest)
    decreases |NEW| - j
  {
    hide NEW, OLD;
    var s := NEW[j..] + rest;
    if j < |NEW| {
      NoOldInNew(j, rest);
      assert s[1..] == NEW[j + 1..] + rest && NEW[j..] == [s[0]] + NEW[j + 1..];
      OverNew(j + 1, rest);
    } else {
      assert s == rest && NEW[j..] + Replace(rest) == Replace(rest);
    }
  }

  /** The rest of a new base is at the front before and after a replacement, or at neither time. */
  lemma {:induction false} NewTailKept(j: nat, x: Text)
    requires 1 <= j <= |NEW|
    ensures Leads(NEW[j..], Replace(x)) <==> Leads(NEW[j..], x)
    decreases |NEW| - j
  {
    hide NEW, OLD;
    NewLetters();
    OldLetters();
    if j < |NEW| && x != [] {
      var t := NEW[j..];
      LeadsTail(t, x);
      LeadsTail(t, Replace(x));
      assert t[0] == NEW[j] && t[1..] == NEW[j + 1..];
      if StartsOld(x) {
        LeadsAt(OLD, x, 0);
        assert Replace(x)[0] == NEW[0];
      } else {
        assert Replace(x)[0] == x[0] && Replace(x)[1..] == Replace(x[1..]);
        NewTailKept(j + 1, x[1..]);
      }
    }
  }

  /** Every old base becomes a new one; no other appears or disappears, not even across the seams. */
  lemma {:induction false} NewCounted(s: Text)
    ensures CountOf(Replace(s), New) == Count(s) + CountOf(s, New)
    decreases |s|
  {
    hide NEW, OLD;
    OldLetters();
    NewLetters();
    if s == [] {
    } else if StartsOld(s) {
      var rest := s[|OLD|..];
      assert s == OLD + rest && OLD[0..] == OLD;
      SkipOld(0, rest);
      NewCounted(rest);
      NewFirst(Replace(rest));
    } else if Leads(NEW, s) {
      var rest := s[|NEW|..];
      assert s == NEW + rest && NEW[0..] == NEW;
      OverNew(0, rest);
      NewCounted(rest);
      NewFirst(rest);
      NewFirst(Replace(rest));
    } else {
      NewCounted(s[1..]);
      NewTailKept(1, s[1..]);
      LeadsTail(NEW, s);
      LeadsTail(NEW, Replace(s));
      assert Replace(s)[1..] == Replace(s[1..]);
    }
  }

  lemma NewFirst(rest: Text)
    ensures CountOf(NEW + rest, New) == 1 + CountOf(rest, New)
  {
    hide NEW;
    NewLetters();
    assert (NEW + rest)[..|NEW|] == NEW && (NEW + rest)[|NEW|..] == rest;
  }
}
