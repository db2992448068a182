/** Approved reverts, executed by a daemon that may crash at any step and resumes. */
module RevertDaemon {
  // The inverse commit carries the request id as a trailer, and the search for that trailer is what keeps a
  // retried request from being reverted twice.  When the search fails, only one guard is left: an inverse that
  // leaves the request's document as it is is not committed.

  import opened Text

  type Id = string

  type Doc = string

  /** The tracked files. */
  type Tree = map<Doc, string>

  datatype Commit = Commit(request: Option<Id>, tree: Tree)

  datatype Reason =
    BadRunRange | StatusFailed | TreeNotClean | RetryAmbiguous | EvidenceUnavailable | Conflict | RebuildFailed
        | CommitFailed

  datatype Outcome = Reverted(commit: nat) | Failed(reason: Reason) | Crashed

  /** A fetched request; `merged` is the Worker's journal entry for it. */
  datatype Request = Request(id: Id, validRange: bool, merged: bool)

  /**
   What is settled outside the daemon: the commits the pattern made of an id matches (`git log --grep` reads the
   id as a pattern), the document of a request, the tree that undoing its run of revisions makes of a clean
   tree (`None`: a conflict), and whether the Worker refuses the completion for what it says.
   */
  datatype Setting =
    Setting(matches: (Id, Id) -> bool, doc: Id -> Doc, undo: (Id, Tree) -> Option<Tree>,
            refuses: Id -> bool)

  /** The pattern made of the id finds that id and nothing else. */
  ghost predicate Exact(s: Setting, id: Id) {
    forall other :: s.matches(id, other) <==> other == id
  }

  // ---- Texts ------------------------------------------------------------------------------------------------

  const MAX_TEXT_BYTES: nat := 131072

  function Utf8Length(text: string): nat {
    if text == "" then 0 else Utf8Length(text[..|text| - 1]) + Utf8Width(text[|text| - 1])
  }

  function Utf8Width(c: char): nat {
    if c as int < 0x80 then 1 else if c as int < 0x800 then 2 else if c as int < 0x1_0000 then 3 else 4
  }

  /** How many code points `width` bytes have room for: 6 bits in each byte after the first. */
  function Utf8Room(width: nat): nat
    requires 1 <= width <= 4
  {
    if width == 1 then Pow2(7) else Pow2(6 * (width - 1) + (7 - width))
  }

  function Pow2(n: nat): nat {
    if n == 0 then 1 else 2 * Pow2(n - 1)
  }

  /** A code point takes the fewest bytes that have room for it. */
  lemma Utf8IsShortest(c: char)
    ensures 1 <= Utf8Width(c) <= 4 && c as int < Utf8Room(Utf8Width(c))
    ensures Utf8Width(c) > 1 ==> c as int >= Utf8Room(Utf8Width(c) - 1)
  {
    assert Pow2(7) == 0x80 && Pow2(11) == 16 * Pow2(7) && Pow2(16) == 32 * Pow2(11) && Pow2(21) == 32 * Pow2(16);
  }

  /** The document is there before and after, with different texts of a size that can be recorded. */
  predicate Fits(doc: Doc, before: Tree, after: Tree) {
    && doc in before && doc in after && before[doc] != after[doc]
    && Utf8Length(before[doc]) <= MAX_TEXT_BYTES && Utf8Length(after[doc]) <= MAX_TEXT_BYTES
  }

  predicate SameDocument(doc: Doc, before: Tree, after: Tree) {
    (doc in before <==> doc in after) && (doc in before ==> before[doc] == after[doc])
  }

  /** Undoing the request's run in this tree gives something to commit. */
  predicate Lands(s: Setting, id: Id, tree: Tree) {
    s.undo(id, tree).Some? && Fits(s.doc(id), tree, s.undo(id, tree).value)
  }

  /** The document went to what undoing makes of it; a rebuild may have changed other files. */
  predicate Undone(s: Setting, id: Id, before: Tree, after: Tree) {
    Lands(s, id, before) && s.doc(id) in after && after[s.doc(id)] == s.undo(id, before).value[s.doc(id)]
  }

  /** Undoing the run once more changes nothing in a document that is as undoing left it. */
  ghost predicate Settled(s: Setting, id: Id) {
    forall before, after, later: Tree ::
      Undone(s, id, before, after) && s.doc(id) in later && later[s.doc(id)] == after[s.doc(id)] ==>
        !Lands(s, id, later)
  }

  // ---- Histories ----------------------------------------------------------------------------------------

  /** How many commits carry this request's trailer. */
  function Landed(history: seq<Commit>, id: Id): nat {
    if history == [] then 0
    else Landed(history[..|history| - 1], id) + if history[|history| - 1].request == Some(id) then 1 else 0
  }

  lemma {:induction false} LandedSomewhere(history: seq<Commit>, id: Id)
    ensures Landed(history, id) > 0 <==> exists k :: 0 <= k < |history| && history[k].request == Some(id)
    decreases |history|
  {
    if history != [] {
      LandedSomewhere(history[..|history| - 1], id);
    }
  }

  lemma LandedSnoc(history: seq<Commit>, c: Commit, id: Id)
    ensures Landed(history + [c], id) == Landed(history, id) + if c.request == Some(id) then 1 else 0
  {
    assert (history + [c])[..|history|] == history;
  }

  /** One inverse commit for `id` was added, and it undid the run in the request's document. */
  predicate OneMore(s: Setting, before: seq<Commit>, after: seq<Commit>, id: Id) {
    && before != [] && |after| == |before| + 1 && after[..|before|] == before && after[|before|].request == Some(id)
    && Undone(s, id, before[|before| - 1].tree, after[|before|].tree)
  }

  /** The last commit whose trailer the pattern made of `id` matches. */
  function LastMatch(matches: (Id, Id) -> bool, history: seq<Commit>, id: Id): Option<nat> {
    if history == [] then None
    else
      var last := history[|history| - 1];
      if last.request.Some? && matches(id, last.request.value) then Some(|history| - 1)
      else LastMatch(matches, history[..|history| - 1], id)
  }

  lemma {:induction false} LastMatchIsLast(matches: (Id, Id) -> bool, history: seq<Commit>, id: Id)
    ensures var k := LastMatch(matches, history, id);
            && (k.Some? ==>
                  && k.value < |history| && history[k.value].request.Some?
                  && matches(id, history[k.value].request.value))
            && forall m :: (if k.Some? then k.value < m else 0 <= m) && m < |history| && history[m].request.Some? ==>
                 !matches(id, history[m].request.value)
    decreases |history|
  {
    if history != [] {
      LastMatchIsLast(matches, history[..|history| - 1], id);
    }
  }

  function Plain(contents: seq<Tree>): seq<Commit> {
    seq(|contents|, k requires 0 <= k < |contents| => Commit(None, contents[k]))
  }

  /** Each inverse commit undid its request's run in the tree before it. */
  ghost predicate Inverses(s: Setting, history: seq<Commit>) {
    && history != [] && history[0].request.None?
    && forall k :: 0 < k < |history| && history[k].request.Some? ==>
         Undone(s, history[k].request.value, history[k - 1].tree, history[k].tree)
  }

  lemma InversesSnoc(s: Setting, history: seq<Commit>, c: Commit)
    requires Inverses(s, history)
    requires c.request.Some? ==> Undone(s, c.request.value, history[|history| - 1].tree, c.tree)
    ensures Inverses(s, history + [c])
  {
    hide Undone;
  }

  /** One inverse commit per request and one for each blind repetition. */
  ghost predicate Counted(s: Setting, history: seq<Commit>, blind: multiset<Id>) {
    forall id :: s.matches(id, id) ==> Landed(history, id) == blind[id] + if Landed(history, id) > 0 then 1 else 0
  }

  lemma CountedSnoc(s: Setting, history: seq<Commit>, blind: multiset<Id>, id: Id, tree: Tree, searchFailed: bool)
    requires Counted(s, history, blind) && (!searchFailed && s.matches(id, id) ==> Landed(history, id) == 0)
    ensures Counted(s, history + [Commit(Some(id), tree)],
                    blind + if searchFailed && Landed(history, id) > 0 then multiset{id} else multiset{})
    ensures forall other :: Landed(history + [Commit(Some(id), tree)], other) >= Landed(history, other)
    ensures Landed(history + [Commit(Some(id), tree)], id) >= 1
  {
    var c := Commit(Some(id), tree);
    forall other ensures Landed(history + [c], other) == Landed(history, other) + if other == id then 1 else 0 {
      LandedSnoc(history, c, other);
    }
  }

  lemma NothingLands(s: Setting, id: Id, tree: Tree)
    ensures s.doc(id) !in tree || s.undo(id, tree).None? ==> !Lands(s, id, tree)
  {
  }

  // ---- What one execution does ---------------------------------------------------------------------------

  /** The search finds an inverse commit of this request, or of one its pattern also matches. */
  predicate Found(s: Setting, history: seq<Commit>, id: Id, searchFailed: bool) {
    !searchFailed && LastMatch(s.matches, history, id).Some?
  }

  /** Of a commit and its parent both texts of the document can be shown. */
  predicate Shown(doc: Doc, history: seq<Commit>, k: nat) {
    0 < k < |history| && doc in history[k - 1].tree && doc in history[k].tree
  }

  /** On a clean tree, when nothing fails except perhaps the search: the history afterwards. */
  predicate Attempted(s: Setting, before: seq<Commit>, after: seq<Commit>, id: Id, searchFailed: bool)
    requires before != []
  {
    if !Found(s, before, id, searchFailed) && Lands(s, id, before[|before| - 1].tree) then OneMore(s, before, after, id)
    else after == before
  }

  /** And the answer. */
  function Answer(s: Setting, history: seq<Commit>, id: Id, searchFailed: bool): (r: Outcome)
    requires history != []
    ensures !r.Crashed?
  {
    if Found(s, history, id, searchFailed) then
      var k := LastMatch(s.matches, history, id).value;
      if k != |history| - 1 then Failed(RetryAmbiguous)
      else if Shown(s.doc(id), history, k) then Reverted(k)
      else Failed(EvidenceUnavailable)
    else InverseAnswer(s, history, id)
  }

  function InverseAnswer(s: Setting, history: seq<Commit>, id: Id): (r: Outcome)
    requires history != []
    ensures !r.Crashed?
  {
    var tree := history[|history| - 1].tree;
    if s.doc(id) !in tree then Failed(EvidenceUnavailable)
    else if s.undo(id, tree).None? then Failed(Conflict)
    else if Lands(s, id, tree) then Reverted(|history|)
    else Failed(EvidenceUnavailable)
  }

  lemma BlindlyLands(s: Setting, before: seq<Commit>, id: Id)
    requires before != [] && Lands(s, id, before[|before| - 1].tree)
    ensures Answer(s, before, id, true) == Reverted(|before|)
    ensures forall after :: Attempted(s, before, after, id, true) ==> OneMore(s, before, after, id)
  {
    hide OneMore;
  }

  lemma OneMoreLanded(s: Setting, before: seq<Commit>, after: seq<Commit>, id: Id)
    requires OneMore(s, before, after, id)
    ensures Landed(after, id) == Landed(before, id) + 1
  {
    LandedSnoc(before, after[|before|], id);
    assert after == before + [after[|before|]];
  }

  lemma OneOther(before: seq<Commit>, content: Tree, id: Id)
    ensures Landed(before + Plain([content]), id) == Landed(before, id)
    ensures Plain([content]) == [Commit(None, content)]
  {
    LandedSnoc(before, Commit(None, content), id);
    assert Plain([content]) == [Commit(None, content)];
  }

  /** A tick of a run: what the Worker and the daemon had recorded before it, and the histories it goes through. */
  datatype Turn = Turn(journal: set<Id>, quarantined: set<Id>, hs: seq<seq<Commit>>)

  class Daemon {
    const s: Setting
    /** `git reset --hard` does what it says. */
    const resetWorks: bool
    /** The trailer search never fails. */
    const searchWorks: bool
    /** No other call fails and nothing crashes. */
    const calm: bool
    /** The search and the recording of a mutation always fail; nothing else does. */
    const plagued: bool

    var history: seq<Commit>
    var tree: Tree
    /** Persisted by the daemon: completions the Worker refused. */
    var quarantined: set<Id>
    /** Persisted by the Worker: requests whose mutation was recorded. */
    var journal: set<Id>

    /** Inverse commits made after a failed search, although there was one for the request. */
    ghost var blind: multiset<Id>
    ghost var executions: seq<Id>

    constructor (s: Setting, resetWorks: bool, searchWorks: bool, calm: bool, plagued: bool, history: seq<Commit>)
      requires history != [] && forall k :: 0 <= k < |history| ==> history[k].request.None?
      ensures this.s == s && this.resetWorks == resetWorks && this.searchWorks == searchWorks && this.calm == calm
      ensures this.plagued == plagued && this.history == history && Valid() && executions == []
      ensures tree == HeadTree() && journal == {} && quarantined == {}
    {
      this.s, this.resetWorks, this.searchWorks, this.calm, this.plagued := s, resetWorks, searchWorks, calm, plagued;
      this.history, tree := history, history[|history| - 1].tree;
      quarantined, journal, blind, executions := {}, {}, multiset{}, [];
      new;
      forall id ensures Landed(history, id) == 0 {
        LandedSomewhere(history, id);
      }
    }

    function HeadTree(): Tree
      requires history != []
      reads this`history
    {
      history[|history| - 1].tree
    }

    /** One inverse commit per request and one for each blind repetition; a journaled request has one. */
    ghost predicate Valid()
      reads this`history, this`journal, this`blind
    {
      && Inverses(s, history)
      && Counted(s, history, blind)
      && (forall id :: id in journal && Exact(s, id) ==> Landed(history, id) >= 1)
      && (searchWorks ==> blind == multiset{})
    }

    predicate Plagued() {
      plagued && !calm && !searchWorks
    }

    method Fails() returns (b: bool)
      ensures calm || plagued ==> !b
    {
      b := *;
      b := b && !calm && !plagued;
    }

    /** `git log -1 --grep`. */
    method FindPrior(id: Id) returns (k: Option<nat>)
      ensures k == LastMatch(s.matches, history, id)
    {
      var m: nat := |history|;
      assert history[..m] == history;
      while m > 0
        invariant m <= |history| && LastMatch(s.matches, history, id) == LastMatch(s.matches, history[..m], id)
      {
        m := m - 1;
        assert history[..m + 1][..m] == history[..m];
        if history[m].request.Some? && s.matches(id, history[m].request.value) {
          return Some(m);
        }
      }
      return None;
    }

    method ResetHard()
      requires history != []
      modifies this`tree
      ensures resetWorks ==> tree == HeadTree()
    {
      if resetWorks {
        tree := HeadTree();
      } else {
        tree := *;
      }
    }

    /** The history gains at most an inverse commit, and that only if the search failed or found nothing. */
    twostate predicate AtMostInverted(id: Id, searchFailed: bool)
      reads this`history, this`blind
    {
      && (history == old(history) ||
          (OneMore(s, old(history), history, id) && !Found(s, old(history), id, searchFailed)))
      && blind == old(blind) + if history != old(history) && searchFailed && Landed(old(history), id) > 0
                               then multiset{id} else multiset{}
    }

    /**
     `execute_revert`.  A new inverse commit lands only if the search for an earlier one failed or found none, and
     only if it changes the request's document.  A failure leaves HEAD alone and, once the tree was found clean,
     the tree as well.  When nothing fails, except perhaps the search, the answer and the history are exactly what
     the texts and the search make them.
     */
    method ExecuteRevert(req: Request) returns (r: Outcome, ghost searchFailed: bool)
      requires Valid()
      modifies this`history, this`tree, this`blind, this`executions
      ensures Valid() && executions == old(executions) + [req.id]
      ensures (searchWorks ==> !searchFailed) && AtMostInverted(req.id, searchFailed)
      ensures r.Failed? ==> history == old(history)
      ensures r.Failed? && r.reason !in {BadRunRange, StatusFailed, TreeNotClean} && resetWorks ==> tree == HeadTree()
      ensures r.Failed? && r.reason == BadRunRange ==> tree == old(tree)
      ensures r.Reverted? && Exact(s, req.id) ==> Landed(history, req.id) >= 1
      ensures r.Reverted? ==>
                && r.commit == |history| - 1
                && (history == old(history) ==> LastMatch(s.matches, history, req.id) == Some(r.commit))
      ensures r == Failed(RetryAmbiguous) ==> LastMatch(s.matches, history, req.id).Some?
      ensures (calm || plagued) && req.validRange && old(tree == HeadTree()) ==>
                && r == Answer(s, old(history), req.id, searchFailed)
                && Attempted(s, old(history), history, req.id, searchFailed)
                && (r.Reverted? ==> tree == HeadTree()) && (Plagued() ==> searchFailed)
      ensures calm && resetWorks && old(tree == HeadTree()) ==>
                !r.Crashed? && tree == HeadTree() && (!req.validRange ==> history == old(history))
    {
      hide Valid, Landed, Exact, OneMore, LastMatch, Answer, Attempted, Found;
      HasHead();
      executions, searchFailed := executions + [req.id], false;
      var stops := Fails();
      if !req.validRange {
        return Failed(BadRunRange), false;
      }
      var dirty := Fails();
      if tree != HeadTree() && dirty {
        tree := *;
      }
      if stops {
        return Crashed, false;
      }
      var failed := Fails();
      if failed {
        return Failed(StatusFailed), false;
      }
      if tree != HeadTree() {
        return Failed(TreeNotClean), false;
      }
      r, searchFailed := ResumeOrInvert(req.id);
    }

    /** On a clean tree: an earlier inverse commit is found and judged, or a new one is made. */
    method ResumeOrInvert(id: Id) returns (r: Outcome, ghost searchFailed: bool)
      requires Valid() && tree == HeadTree()
      modifies this`history, this`tree, this`blind
      ensures Valid()
      ensures (searchWorks ==> !searchFailed) && AtMostInverted(id, searchFailed)
      ensures r.Failed? ==>
                && history == old(history) && (resetWorks ==> tree == HeadTree())
                && r.reason !in {BadRunRange, StatusFailed, TreeNotClean}
      ensures r.Reverted? && Exact(s, id) ==> Landed(history, id) >= 1
      ensures r.Reverted? ==>
                && r.commit == |history| - 1
                && (history == old(history) ==> LastMatch(s.matches, history, id) == Some(r.commit))
      ensures r == Failed(RetryAmbiguous) ==> LastMatch(s.matches, history, id).Some?
      ensures calm || plagued ==>
                && r == Answer(s, old(history), id, searchFailed)
                && Attempted(s, old(history), history, id, searchFailed)
      ensures (r.Reverted? ==> tree == HeadTree()) && (Plagued() ==> searchFailed)
    {
      hide Valid, Landed, Exact, OneMore, LastMatch, Lands, InverseAnswer;
      HasHead();
      var noSearch := Fails();
      var broken: bool := *;
      noSearch := (noSearch || broken || plagued) && !searchWorks;
      searchFailed := noSearch;
      if !noSearch {
        var prior := FindPrior(id);
        LastMatchIsLast(s.matches, history, id);
        if prior.Some? {
          FoundIsLanded(id, prior.value);
          r := Resume(id, prior.value);
          return;
        }
        NoneLanded(id);
      }
      r := InvertIfThere(id, noSearch);
    }

    /** The document's text at HEAD is read first. */
    method InvertIfThere(id: Id, searchFailed: bool) returns (r: Outcome)
      requires Valid() && tree == HeadTree()
      requires !searchFailed && s.matches(id, id) ==> Landed(history, id) == 0
      requires searchWorks ==> !searchFailed
      modifies this`history, this`tree, this`blind
      ensures Valid()
      ensures history == old(history) || OneMore(s, old(history), history, id)
      ensures blind == old(blind) + if history != old(history) && searchFailed && Landed(old(history), id) > 0
                                    then multiset{id} else multiset{}
      ensures r.Failed? ==>
                && history == old(history) && (resetWorks ==> tree == HeadTree())
                && r.reason in {Conflict, RebuildFailed, EvidenceUnavailable, CommitFailed}
      ensures r.Reverted? ==>
                && history != old(history) && OneMore(s, old(history), history, id)
                && r.commit == |history| - 1 && Landed(history, id) >= 1 && tree == HeadTree()
      ensures calm || plagued ==>
                && r == InverseAnswer(s, old(history), id)
                && (history != old(history) <==> Lands(s, id, old(tree)))
    {
      hide Valid, Landed, OneMore, Lands;
      HasHead();
      NothingLands(s, id, HeadTree());
      var failed := Fails();
      if failed || s.doc(id) !in HeadTree() {
        return Failed(EvidenceUnavailable);
      }
      r := Invert(id, searchFailed);
    }

    /** The commit that was found counts if it is at HEAD; a HEAD that cannot be read is no commit's. */
    method Resume(id: Id, k: nat) returns (r: Outcome)
      requires k < |history|
      ensures r in {Failed(RetryAmbiguous), Failed(EvidenceUnavailable), Reverted(k)}
      ensures r.Reverted? ==> k == |history| - 1
      ensures calm || plagued ==>
                r == if k != |history| - 1 then Failed(RetryAmbiguous)
                     else if Shown(s.doc(id), history, k) then Reverted(k) else Failed(EvidenceUnavailable)
    {
      var headUnread := Fails();
      if k != |history| - 1 || headUnread {
        return Failed(RetryAmbiguous);
      }
      var unavailable := Fails();
      if unavailable || !Shown(s.doc(id), history, k) {
        return Failed(EvidenceUnavailable);
      }
      return Reverted(k);
    }

    lemma HasHead()
      requires Valid()
      ensures history != [] && Inverses(s, history)
    {
    }

    lemma FoundIsLanded(id: Id, k: nat)
      requires k < |history| && history[k].request.Some? && s.matches(id, history[k].request.value)
      ensures Exact(s, id) ==> Landed(history, id) >= 1
    {
      if Exact(s, id) {
        assert history[k].request == Some(id);
        LandedSomewhere(history, id);
      }
    }

    lemma NoneLanded(id: Id)
      requires forall m :: 0 <= m < |history| && history[m].request.Some? ==>
                 !s.matches(id, history[m].request.value)
      ensures s.matches(id, id) ==> Landed(history, id) == 0
    {
      LandedSomewhere(history, id);
    }

    /** Revert, rebuild, stage, look at the document and commit, on a clean tree; each failure resets. */
    method Invert(id: Id, searchFailed: bool) returns (r: Outcome)
      requires Valid() && tree == HeadTree() && s.doc(id) in tree
      requires !searchFailed && s.matches(id, id) ==> Landed(history, id) == 0
      requires searchWorks ==> !searchFailed
      modifies this`history, this`tree, this`blind
      ensures Valid()
      ensures history == old(history) || OneMore(s, old(history), history, id)
      ensures blind == old(blind) + if history != old(history) && searchFailed && Landed(old(history), id) > 0
                                    then multiset{id} else multiset{}
      ensures r.Failed? ==> history == old(history) && (resetWorks ==> tree == HeadTree())
      ensures r.Failed? ==> r.reason in {Conflict, RebuildFailed, EvidenceUnavailable, CommitFailed}
      ensures r.Reverted? ==>
                && history != old(history) && OneMore(s, old(history), history, id)
                && r.commit == |history| - 1 && Landed(history, id) >= 1 && tree == HeadTree()
      ensures calm || plagued ==>
                && r == (if s.undo(id, old(tree)).None? then Failed(Conflict)
                         else if Lands(s, id, old(tree)) then Reverted(|old(history)|)
                         else Failed(EvidenceUnavailable))
                && (r.Failed? ==> history == old(history))
    {
      hide Valid, Landed, OneMore, Undone, Fits;
      HasHead();
      var before := tree;
      var undone := s.undo(id, before);
      var failed := Fails();
      if failed || undone.None? {
        ResetHard();
        return Failed(Conflict);
      }
      tree := undone.value;
      var stops := Fails();
      if stops {
        return Crashed;
      }
      failed := Fails();
      Rebuild(s.doc(id));
      if failed {
        ResetHard();
        return Failed(RebuildFailed);
      }
      stops := Fails();
      if stops {
        return Crashed;
      }
      r := StageAndCommit(id, before, searchFailed);
    }

    lemma SameText(id: Id, before: Tree)
      requires s.undo(id, before).Some? && SameDocument(s.doc(id), s.undo(id, before).value, tree)
      ensures Fits(s.doc(id), before, tree) <==> Lands(s, id, before)
      ensures Fits(s.doc(id), before, tree) ==> Undone(s, id, before, tree)
    {
    }

    /** The staged document is compared with the one at HEAD before the commit. */
    method StageAndCommit(id: Id, before: Tree, searchFailed: bool) returns (r: Outcome)
      requires Valid() && before == HeadTree()
      requires s.undo(id, before).Some? && SameDocument(s.doc(id), s.undo(id, before).value, tree)
      requires !searchFailed && s.matches(id, id) ==> Landed(history, id) == 0
      requires searchWorks ==> !searchFailed
      modifies this`history, this`tree, this`blind
      ensures Valid()
      ensures history == old(history) || OneMore(s, old(history), history, id)
      ensures blind == old(blind) + if history != old(history) && searchFailed && Landed(old(history), id) > 0
                                    then multiset{id} else multiset{}
      ensures r.Failed? ==> history == old(history) && (resetWorks ==> tree == HeadTree())
      ensures r.Failed? ==> r.reason in {EvidenceUnavailable, CommitFailed}
      ensures calm || r.Reverted? ==>
                (r.Reverted? <==>
                 var doc, after := s.doc(id), old(tree);
                 && doc in before && doc in after && before[doc] != after[doc]
                 && Utf8Length(before[doc]) <= 131072 && Utf8Length(after[doc]) <= 131072)
      ensures r.Reverted? ==>
                && history != old(history) && OneMore(s, old(history), history, id)
                && r.commit == |history| - 1 && Landed(history, id) >= 1 && tree == HeadTree()
      ensures calm || plagued ==>
                && r == (if Lands(s, id, before) then Reverted(|old(history)|) else Failed(EvidenceUnavailable))
                && (r.Failed? ==> history == old(history))
    {
      hide Valid, Landed, OneMore, Undone, Lands, SameDocument;
      HasHead();
      SameText(id, before);
      var failed := Fails();
      if failed || !Fits(s.doc(id), before, tree) {
        ResetHard();
        return Failed(EvidenceUnavailable);
      }
      failed := Fails();
      if failed {
        ResetHard();
        return Failed(CommitFailed);
      }
      Land(id, searchFailed);
      var stops := Fails();
      if stops {
        return Crashed;
      }
      return Reverted(|history| - 1);
    }

    /** Generated output is rewritten; the document is a source. */
    method Rebuild(doc: Doc)
      modifies this`tree
      ensures SameDocument(doc, old(tree), tree)
    {
      var rebuilt: Tree := *;
      tree := if doc in tree then rebuilt[doc := tree[doc]] else rebuilt - {doc};
    }

    method Land(id: Id, searchFailed: bool)
      requires Valid() && (!searchFailed && s.matches(id, id) ==> Landed(history, id) == 0)
      requires (searchWorks ==> !searchFailed) && Undone(s, id, HeadTree(), tree)
      modifies this`history, this`blind
      ensures Valid() && OneMore(s, old(history), history, id) && HeadTree() == tree && Landed(history, id) >= 1
      ensures |history| == |old(history)| + 1
      ensures blind == old(blind) + if searchFailed && Landed(old(history), id) > 0 then multiset{id} else multiset{}
    {
      hide Undone, Inverses, Counted, Landed;
      var c := Commit(Some(id), tree);
      HasHead();
      InversesSnoc(s, history, c);
      CountedSnoc(s, history, blind, id, tree, searchFailed);
      assert blind + multiset{} == blind;
      if searchFailed && Landed(history, id) > 0 {
        blind := blind + multiset{id};
      }
      history := history + [c];
    }

    /** Commits that carry no revert trailer: the apply flow, and everyone else. */
    method OtherCommits(contents: seq<Tree>)
      requires Valid()
      modifies this`history, this`tree
      ensures Valid() && history == old(history) + Plain(contents)
      ensures tree == if contents == [] then old(tree) else HeadTree()
    {
      hide Undone, Inverses;
      HasHead();
      var k := 0;
      while k < |contents|
        invariant k <= |contents| && Valid() && history == old(history) + Plain(contents[..k])
        invariant tree == if k == 0 then old(tree) else contents[k - 1]
        invariant k > 0 ==> history != [] && HeadTree() == tree
      {
        var c := Commit(None, contents[k]);
        InversesSnoc(s, history, c);
        forall id ensures Landed(history + [c], id) == Landed(history, id) {
          LandedSnoc(history, c, id);
        }
        assert Plain(contents[..k + 1]) == Plain(contents[..k]) + [c];
        history, tree := history + [c], contents[k];
        k := k + 1;
      }
      assert contents[..|contents|] == contents;
    }

    // ---- A tick -------------------------------------------------------------------------------------------

    /** What the Worker lists: it says `merged` for the requests in its journal, and lists each once. */
    predicate Truthful(reqs: seq<Request>)
      reads this`journal
    {
      TruthfulFor(reqs, journal)
    }

    predicate TruthfulFor(reqs: seq<Request>, journal: set<Id>) {
      && (forall k :: 0 <= k < |reqs| ==> (reqs[k].merged <==> reqs[k].id in journal))
      && (forall i, j :: 0 <= i < j < |reqs| ==> reqs[i].id != reqs[j].id)
    }

    /** The Worker journals the mutation as merged. */
    method Record(id: Id)
      requires Valid() && (Exact(s, id) ==> Landed(history, id) >= 1)
      modifies this`journal
      ensures Valid() && journal == old(journal) + {id}
    {
      journal := journal + {id};
    }

    /** The request can be executed, its run can be undone, and everything else goes wrong. */
    ghost predicate Retried(req: Request)
      reads this`history, this`tree, this`quarantined
    {
      && Plagued() && req.id !in quarantined && !req.merged && req.validRange
      && history != [] && tree == HeadTree() && Lands(s, req.id, tree)
    }

    twostate predicate RevertedUnrecorded(req: Request)
      reads this`history, this`tree, this`quarantined, this`journal
    {
      && OneMore(s, old(history), history, req.id) && tree == HeadTree()
      && journal == old(journal) && quarantined == old(quarantined)
    }

    /** The request is neither journaled nor quarantined. */
    predicate Due(req: Request, quarantined: set<Id>) {
      !req.merged && req.id !in quarantined
    }

    function AllDue(reqs: seq<Request>, quarantined: set<Id>): seq<Id> {
      if reqs == [] then []
      else
        AllDue(reqs[..|reqs| - 1], quarantined) +
        if Due(reqs[|reqs| - 1], quarantined) then [reqs[|reqs| - 1].id] else []
    }

    /** The histories a tick goes through when nothing fails: one attempt for every request that is due, in order. */
    ghost predicate Goes(reqs: seq<Request>, hs: seq<seq<Commit>>, quarantined: set<Id>) {
      && |hs| == |reqs| + 1
      && forall k :: 0 <= k < |reqs| ==>
           hs[k] != [] &&
           if Due(reqs[k], quarantined) && reqs[k].validRange then Attempted(s, hs[k], hs[k + 1], reqs[k].id, false)
           else hs[k + 1] == hs[k]
    }

    lemma NothingGoes(hs: seq<seq<Commit>>, quarantined: set<Id>)
      requires |hs| == 1
      ensures Goes([], hs, quarantined) && AllDue([], quarantined) == []
    {
    }

    lemma OneMoreDue(reqs: seq<Request>, k: nat, quarantined: set<Id>)
      requires k < |reqs|
      ensures AllDue(reqs[..k + 1], quarantined) ==
              AllDue(reqs[..k], quarantined) + if Due(reqs[k], quarantined) then [reqs[k].id] else []
    {
      assert reqs[..k + 1][..k] == reqs[..k];
    }

    lemma GoesOn(reqs: seq<Request>, k: nat, hs: seq<seq<Commit>>, quarantined: set<Id>, h: seq<Commit>)
      requires k < |reqs| && Goes(reqs[..k], hs, quarantined) && hs[k] != []
      requires if Due(reqs[k], quarantined) && reqs[k].validRange then Attempted(s, hs[k], h, reqs[k].id, false)
               else h == hs[k]
      ensures Goes(reqs[..k + 1], hs + [h], quarantined)
    {
      hide Attempted;
      assert reqs[..k + 1][..k] == reqs[..k];
    }

    /** One request: resume, execute or skip; and whether the tick goes on. */
    method Handle(req: Request) returns (goOn: bool)
      requires Valid() && (req.merged <==> req.id in journal)
      modifies this
      ensures Valid() && old(journal) <= journal <= old(journal) + {req.id}
      ensures old(quarantined) <= quarantined <= old(quarantined) + {req.id}
      ensures executions == old(executions) ||
              (executions == old(executions) + [req.id] && req.id !in old(journal) && req.id !in old(quarantined))
      ensures quarantined != old(quarantined) ==> req.id in journal
      ensures req.id in old(quarantined) || req.merged ==> history == old(history) && executions == old(executions)
      ensures history == old(history) || OneMore(s, old(history), history, req.id)
      ensures calm && searchWorks && req.id !in old(quarantined) && !req.merged && req.validRange
              && old(tree == HeadTree()) ==>
                && goOn && Attempted(s, old(history), history, req.id, false)
                && (Answer(s, old(history), req.id, false).Reverted? ==>
                      req.id in journal && (s.refuses(req.id) ==> req.id in quarantined))
      ensures old(Retried(req)) ==> RevertedUnrecorded(req)
      ensures calm && resetWorks && old(tree == HeadTree()) ==>
                && goOn && tree == HeadTree()
                && (quarantined == old(quarantined) || s.refuses(req.id))
                && (req.merged && s.refuses(req.id) ==> req.id in quarantined)
                && executions == old(executions) + (if Due(req, old(quarantined)) then [req.id] else [])
                && (!Due(req, old(quarantined)) || !req.validRange ==> history == old(history))
    {
      hide Lands, Valid, Landed, Exact, LastMatch, OneMore, Answer, Attempted, Found;
      HasHead();
      if req.id in quarantined {
        return true;
      }
      var refused := Fails();
      if refused {
        return false;
      }
      if !req.merged {
        var recorded;
        recorded, goOn := ExecuteAndRecord(req);
        if !recorded {
          return;
        }
      }
      goOn := Complete(req.id);
    }

    /** `execute_revert` and the Worker's record of it. */
    method ExecuteAndRecord(req: Request) returns (recorded: bool, goOn: bool)
      requires Valid()
      modifies this`history, this`tree, this`blind, this`executions, this`journal
      ensures Valid() && old(journal) <= journal <= old(journal) + {req.id}
      ensures executions == old(executions) + [req.id] && (recorded ==> goOn && req.id in journal)
      ensures history == old(history) || OneMore(s, old(history), history, req.id)
      ensures calm && searchWorks && req.validRange && old(tree == HeadTree()) ==>
                && goOn && Attempted(s, old(history), history, req.id, false)
                && (Answer(s, old(history), req.id, false).Reverted? ==> recorded)
      ensures old(Retried(req)) ==> !recorded && RevertedUnrecorded(req)
      ensures calm && resetWorks && old(tree == HeadTree()) ==>
                goOn && tree == HeadTree() && (!req.validRange ==> history == old(history))
    {
      hide Lands, Valid, Landed, Exact, LastMatch, OneMore, Answer, Attempted, Found;
      HasHead();
      if Retried(req) {
        BlindlyLands(s, history, req.id);
      }
      var r;
      ghost var searchFailed;
      r, searchFailed := ExecuteRevert(req);
      if r.Crashed? {
        return false, false;
      }
      if r.Failed? {
        return false, true;
      }
      var lost := Fails();
      var unanswered := Fails();
      if !lost && !Plagued() {
        Record(req.id);
      }
      recorded := !lost && !unanswered && !Plagued();
      goOn := recorded;
    }

    /** The completion is sent; one that the Worker refuses for what it says is put aside. */
    method Complete(id: Id) returns (goOn: bool)
      modifies this`quarantined
      ensures quarantined == old(quarantined) || (goOn && s.refuses(id) && quarantined == old(quarantined) + {id})
      ensures calm || plagued ==> goOn && quarantined == old(quarantined) + if s.refuses(id) then {id} else {}
      ensures goOn && s.refuses(id) ==> id in quarantined
    {
      var failed := Fails();
      if failed {
        return false;
      }
      var unsent := Fails();
      if unsent {
        return false;
      }
      if s.refuses(id) {
        var unsaved := Fails();
        if !unsaved {
          quarantined := quarantined + {id};
        }
        return !unsaved;
      }
      return true;
    }

    /** The revert half of a tick.  Journaled and quarantined requests are not executed. */
    method Tick(reqs: seq<Request>) returns (ghost hs: seq<seq<Commit>>)
      requires Valid() && Truthful(reqs)
      modifies this
      ensures Valid() && old(journal) <= journal && old(quarantined) <= quarantined
      ensures old(executions) <= executions
      ensures forall k :: |old(executions)| <= k < |executions| ==>
                executions[k] !in old(journal) && executions[k] !in old(quarantined)
      ensures |reqs| == 1 && old(Retried(reqs[0])) ==> RevertedUnrecorded(reqs[0])
      ensures history != [] && hs != [] && hs[0] == old(history) && hs[|hs| - 1] == history
      ensures calm && resetWorks && old(history != [] && tree == HeadTree()) ==>
                && executions == old(executions) + AllDue(reqs, old(quarantined)) && tree == HeadTree()
                && (searchWorks ==> Goes(reqs, hs, old(quarantined)))
    {
      hide Retried, Valid, OneMore, Attempted, Answer, Goes, AllDue;
      HasHead();
      hs := [history];
      ghost var q := quarantined;
      NothingGoes(hs, q);
      var k := 0;
      var goOn := true;
      while k < |reqs| && goOn
        invariant k <= |reqs| && Valid() && (k == 0 ==> goOn)
        invariant k == 0 ==> unchanged(this)
        invariant k == 1 && old(Retried(reqs[0])) ==> RevertedUnrecorded(reqs[0])
        invariant history != [] && |hs| == k + 1 && hs[0] == old(history) && hs[k] == history
        invariant forall m :: k <= m < |reqs| ==> (reqs[m].id in quarantined <==> reqs[m].id in q)
        invariant calm && resetWorks && old(tree == HeadTree()) ==>
                    && goOn && tree == HeadTree()
                    && executions == old(executions) + AllDue(reqs[..k], q)
                    && (searchWorks ==> Goes(reqs[..k], hs, q))
        invariant old(journal) <= journal && old(quarantined) <= quarantined && old(executions) <= executions
        invariant forall m :: k <= m < |reqs| ==> (reqs[m].merged <==> reqs[m].id in journal)
        invariant forall m :: |old(executions)| <= m < |executions| ==>
                    executions[m] !in old(journal) && executions[m] !in old(quarantined)
      {
        goOn := Handle(reqs[k]);
        HasHead();
        if calm && resetWorks && searchWorks && old(tree == HeadTree()) {
          GoesOn(reqs, k, hs, q, history);
        }
        OneMoreDue(reqs, k, q);
        hs := hs + [history];
        k := k + 1;
      }
      assert reqs[..|reqs|] == reqs;
    }

    /** What the Worker lists at its `k`-th question when this is its journal. */
    ghost predicate Lists(list: (nat, set<Id>) -> seq<Request>)
    {
      forall k, journal :: TruthfulFor(list(k, journal), journal)
    }

    /** A tick: the commits of others, then the histories that the tick goes through. */
    ghost predicate Turned(turns: seq<Turn>, k: nat, start: seq<Commit>, others: seq<seq<Tree>>)
      requires k < |turns| && k < |others|
    {
      && turns[k].hs != []
      && turns[k].hs[0] == (if k == 0 then start else EndOf(turns[k - 1], start)) + Plain(others[k])
    }

    ghost function EndOf(turn: Turn, start: seq<Commit>): seq<Commit> {
      if turn.hs == [] then start else turn.hs[|turn.hs| - 1]
    }

    /** Any number of ticks, each with whatever the Worker then lists, and other commits in between. */
    method Run(n: nat, list: (nat, set<Id>) -> seq<Request>, others: seq<seq<Tree>>) returns (ghost turns: seq<Turn>)
      requires Valid() && |others| == n && Lists(list)
      modifies this
      ensures Valid()
      ensures old(executions) <= executions
      ensures forall k :: |old(executions)| <= k < |executions| ==>
                executions[k] !in old(journal) && executions[k] !in old(quarantined)
      ensures |turns| == n && history == if n == 0 then old(history) else EndOf(turns[n - 1], old(history))
      ensures forall k :: 0 <= k < n ==> Turned(turns, k, old(history), others)
      ensures calm && searchWorks && resetWorks && old(history != [] && tree == HeadTree()) ==>
                forall k :: 0 <= k < n ==> Goes(list(k, turns[k].journal), turns[k].hs, turns[k].quarantined)
    {
      hide Goes, Lists, AllDue, Plain;
      turns := [];
      var k := 0;
      while k < n
        invariant k <= n && Valid() && |turns| == k
        invariant history == if k == 0 then old(history) else EndOf(turns[k - 1], old(history))
        invariant forall m :: 0 <= m < k ==> Turned(turns, m, old(history), others)
        invariant calm && searchWorks && resetWorks && old(history != [] && tree == HeadTree()) ==>
                    && history != [] && tree == HeadTree()
                    && forall m :: 0 <= m < k ==> Goes(list(m, turns[m].journal), turns[m].hs, turns[m].quarantined)
        invariant old(journal) <= journal && old(quarantined) <= quarantined && old(executions) <= executions
        invariant forall m :: |old(executions)| <= m < |executions| ==>
                    executions[m] !in old(journal) && executions[m] !in old(quarantined)
      {
        Listed(list, k, journal);
        ghost var turn := Turn(journal, quarantined, []);
        ghost var before := turns;
        ghost var hs := TakeTurn(list(k, journal), others[k]);
        turns := turns + [turn.(hs := hs)];
        forall m | 0 <= m < k ensures Turned(turns, m, old(history), others) {
          assert Turned(before, m, old(history), others);
        }
        k := k + 1;
      }
    }

    /** The commits of others, and then a tick. */
    method TakeTurn(reqs: seq<Request>, others: seq<Tree>) returns (ghost hs: seq<seq<Commit>>)
      requires Valid() && Truthful(reqs)
      modifies this
      ensures Valid() && old(journal) <= journal && old(quarantined) <= quarantined
      ensures old(executions) <= executions
      ensures forall k :: |old(executions)| <= k < |executions| ==>
                executions[k] !in old(journal) && executions[k] !in old(quarantined)
      ensures hs != [] && hs[0] == old(history) + Plain(others) && hs[|hs| - 1] == history
      ensures calm && resetWorks && old(history != [] && tree == HeadTree()) ==>
                && history != [] && tree == HeadTree() && executions == old(executions) + AllDue(reqs, old(quarantined))
                && (searchWorks ==> Goes(reqs, hs, old(quarantined)))
    {
      hide Valid, Goes, AllDue, TruthfulFor;
      HasHead();
      OtherCommits(others);
      assert others == [] ==> Plain(others) == [] && history == old(history);
      HasHead();
      hs := Tick(reqs);
    }

    lemma Listed(list: (nat, set<Id>) -> seq<Request>, k: nat, journal: set<Id>)
      requires Lists(list)
      ensures TruthfulFor(list(k, journal), journal)
    {
    }
  }

  // ---- At most once, and when not --------------------------------------------------------------------------

  /**
   A request is reverted more than once exactly when a search for it failed while its commit was there and the
   inverse landed all the same; and never if no search fails.
   */
  lemma AtMostOnce(d: Daemon, id: Id)
    requires d.Valid() && Exact(d.s, id)
    ensures Landed(d.history, id) <= 1 <==> d.blind[id] == 0
    ensures d.searchWorks ==> Landed(d.history, id) <= 1
    ensures id in d.journal ==> Landed(d.history, id) == 1 + d.blind[id]
  {
    assert d.s.matches(id, id);
  }

  /**
   With nothing else failing, a repetition lands exactly when the search failed and undoing the run still changes
   the document.
   */
  lemma RepetitionIsExact(s: Setting, before: seq<Commit>, after: seq<Commit>, id: Id, searchFailed: bool)
    requires before != [] && Exact(s, id) && Landed(before, id) > 0 && Attempted(s, before, after, id, searchFailed)
    ensures Landed(after, id) ==
            Landed(before, id) + if searchFailed && Lands(s, id, before[|before| - 1].tree) then 1 else 0
  {
    hide Lands, Undone;
    LandedSomewhere(before, id);
    LastMatchIsLast(s.matches, before, id);
    if after != before {
      LandedSnoc(before, after[|before|], id);
      assert after == before + [after[|before|]];
    }
  }

  /** Between two inverse commits for a request, someone else changed its document. */
  lemma RepetitionNeedsChange(s: Setting, history: seq<Commit>, id: Id, k: nat, m: nat)
    requires Inverses(s, history) && Settled(s, id) && k < m < |history|
    requires history[k].request == Some(id) && history[m].request == Some(id)
    ensures s.doc(id) in history[k].tree && s.doc(id) in history[m - 1].tree
    ensures history[m - 1].tree[s.doc(id)] != history[k].tree[s.doc(id)] && m - 1 != k
  {
    hide Utf8Length;
    assert Undone(s, id, history[k - 1].tree, history[k].tree);
    assert Undone(s, id, history[m - 1].tree, history[m].tree) && Lands(s, id, history[m - 1].tree);
  }

  /** Right after an inverse commit even a blind repetition does nothing: the document would stay as it is. */
  lemma AtOnceNothing(s: Setting, before: seq<Commit>, after: seq<Commit>, later: seq<Commit>, id: Id)
    requires Settled(s, id) && OneMore(s, before, after, id) && Attempted(s, after, later, id, true)
    ensures later == after
  {
    hide Lands;
    assert s.doc(id) in after[|before|].tree;
  }

  /**
   A run in which a request is reverted twice: its inverse commit lands, someone puts the undone text back, the
   recording of the first one is lost, and in the retry the search fails.
   */
  lemma RevertedTwice() returns (s: Setting, h: seq<Commit>, id: Id)
    ensures |h| == 4 && Exact(s, id) && Settled(s, id) && h[0].request.None? && h[2].request.None?
    ensures Attempted(s, h[..1], h[..2], id, false) && Attempted(s, h[..3], h[..4], id, true)
    ensures Landed(h, id) == 2
  {
    id := "r";
    var was: Tree, undone: Tree := map["d" := "new"], map["d" := "old"];
    s := UndoesToOld();
    var first, back := Commit(Some(id), undone), Commit(None, was);
    h := [back, first, back, first];
    ShortTexts();
    assert Lands(s, id, was) && Undone(s, id, was, undone);
    LandedSnoc([], back, id);
    LandedSnoc([back], first, id);
    LandedSnoc([back, first], back, id);
    LandedSnoc([back, first, back], first, id);
    assert [] + [back] == [back] && [back] + [first] == h[..2] && h[..2] + [back] == h[..3] && h[..3] + [first] == h;
    assert h[..1] == [back] && h[..1][..0] == [] && LastMatch(s.matches, h[..1], id).None?;
  }

  /**
   The daemon doing so: two ticks list the request, between them someone puts the undone text back, and neither
   the search nor the recording of the mutation ever succeeds.
   */
  method RevertsTwice() returns (d: Daemon)
    ensures fresh(d) && d.Valid() && Exact(d.s, "r") && Settled(d.s, "r") && d.journal == {}
    ensures Landed(d.history, "r") == 2 && d.blind["r"] == 1
  {
    hide Daemon.Valid, OneMore, Landed, Lands, Settled;
    var id: Id := "r";
    var was: Tree := map["d" := "new"];
    var s := UndoesToOld();
    var req := Request(id, true, false);
    OldIsSettled(s, was);
    d := new Daemon(s, true, false, false, true, Plain([was]));
    OneOther([], was, id);
    NoneYet(id);
    assert [] + Plain([was]) == Plain([was]);
    var zero := d.history;
    ghost var _ := d.Tick([req]);
    OneMoreLanded(s, zero, d.history, id);
    OneOther(d.history, was, id);
    d.OtherCommits([was]);
    var two := d.history;
    ghost var _ := d.Tick([req]);
    OneMoreLanded(s, two, d.history, id);
    AtMostOnce(d, id);
    Twice(d, id);
  }

  /** Every run puts the text `old` into the document `d`. */
  function UndoesToOld(): Setting {
    Setting((p, other) => p == other, _ => "d", (_, tree: Tree) => Some(tree["d" := "old"]), _ => false)
  }

  lemma OldIsSettled(s: Setting, was: Tree)
    requires s == UndoesToOld() && was == map["d" := "new"]
    ensures Exact(s, "r") && Settled(s, "r") && Lands(s, "r", was)
  {
    ShortTexts();
  }

  lemma NoneYet(id: Id)
    ensures Landed([], id) == 0
  {
  }

  lemma Twice(d: Daemon, id: Id)
    requires d.Valid() && Exact(d.s, id) && Landed(d.history, id) == 2
    ensures d.blind[id] == 1
  {
    assert d.s.matches(id, id);
  }

  lemma ShortTexts()
    ensures Utf8Length("new") == 3 && Utf8Length("old") == 3
  {
    assert "new"[..2] == "ne" && "ne"[..1] == "n" && "n"[..0] == "";
    assert "old"[..2] == "ol" && "ol"[..1] == "o" && "o"[..0] == "";
    assert Utf8Length("n") == 1 && Utf8Length("ne") == 2;
    assert Utf8Length("o") == 1 && Utf8Length("ol") == 2;
  }
}
