/** Reverse edits of converted files, over repeated rewrites, and the round-trip check. */
module DayZeroProofs {
  // The edits are captured again at every rewrite of a file; the independent round-trip check takes every
  // touched file back to the bytes it had before.

  import opened Text

  type Byte = b: int | 0 <= b < 256
  type Bytes = seq<Byte>
  type Source = string

  /** Replace `after[start..end]` by bytes of the file before the conversion. */
  datatype ReverseEdit = ReverseEdit(start: int, end: int, replacement: Bytes)

  datatype FileProof = FileProof(path: Source, edits: seq<ReverseEdit>)

  // ---- Undoing edits -----------------------------------------------------------------------------------

  /** `sorted(edits, key=start, reverse=True)`: later starts first, equal starts in their given order. */
  function InsertDown(e: ReverseEdit, edits: seq<ReverseEdit>): seq<ReverseEdit> {
    if edits == [] || e.start > edits[0].start then [e] + edits else [edits[0]] + InsertDown(e, edits[1..])
  }

  function SortedDown(edits: seq<ReverseEdit>): seq<ReverseEdit> {
    if edits == [] then [] else InsertDown(edits[|edits| - 1], SortedDown(edits[..|edits| - 1]))
  }

  /** In bounds, and not reaching into the edit handled before it. */
  predicate Applicable(e: ReverseEdit, length: nat, prior: int) {
    0 <= e.start <= e.end <= length && e.end <= prior
  }

  /** Every edit is applicable below the one before it in the list. */
  predicate Disjoint(edits: seq<ReverseEdit>, length: nat, prior: int) {
    edits == [] || (Applicable(edits[0], length, prior) && Disjoint(edits[1..], length, edits[0].start))
  }

  /** The file with the edits undone, wherever they stand: the untouched stretches and the replacements. */
  function Undone(after: Bytes, edits: seq<ReverseEdit>, upTo: nat): Bytes
    requires Disjoint(edits, |after|, upTo) && upTo <= |after|
    decreases |edits|
  {
    if edits == [] then after[..upTo]
    else Undone(after, edits[1..], edits[0].start) + edits[0].replacement + after[edits[0].end..upTo]
  }

  /** The edits carried out one after the other, each below the last; `None` where one is refused. */
  function UndoDown(restored: Bytes, length: nat, edits: seq<ReverseEdit>, prior: int): Option<Bytes>
    decreases |edits|
  {
    if edits == [] then Some(restored)
    else
      var e := edits[0];
      if !Applicable(e, length, prior) || e.end > |restored| then None
      else UndoDown(restored[..e.start] + e.replacement + restored[e.end..], length, edits[1..], e.start)
  }

  lemma SameBelow(restored: Bytes, after: Bytes, e: ReverseEdit, x: nat)
    requires x <= |restored| && x <= |after| && restored[..x] == after[..x] && Applicable(e, |after|, x)
    ensures (restored[..e.start] + e.replacement + restored[e.end..])[..e.start] == after[..e.start]
  {
    assert restored[..e.start] == restored[..x][..e.start] == after[..x][..e.start] == after[..e.start];
  }

  lemma OneUndone(restored: Bytes, after: Bytes, e: ReverseEdit, below: Bytes, x: nat)
    requires x <= |restored| && x <= |after| && restored[..x] == after[..x] && Applicable(e, |after|, x)
    ensures below + (restored[..e.start] + e.replacement + restored[e.end..])[e.start..] ==
            (below + e.replacement + after[e.end..x]) + restored[x..]
  {
    Stretch(restored, after, e.end, x);
    assert (restored[..e.start] + e.replacement + restored[e.end..])[e.start..] == e.replacement + restored[e.end..];
    assert below + (e.replacement + (after[e.end..x] + restored[x..])) ==
           (below + e.replacement + after[e.end..x]) + restored[x..];
  }

  lemma {:induction false} UndoDownIsUndone(restored: Bytes, after: Bytes, edits: seq<ReverseEdit>, x: nat)
    requires x <= |restored| && x <= |after| && restored[..x] == after[..x]
    ensures UndoDown(restored, |after|, edits, x) ==
            if Disjoint(edits, |after|, x) then Some(Undone(after, edits, x) + restored[x..]) else None
    decreases |edits|
  {
    if edits != [] && Applicable(edits[0], |after|, x) {
      var e := edits[0];
      var next := restored[..e.start] + e.replacement + restored[e.end..];
      SameBelow(restored, after, e, x);
      UndoDownIsUndone(next, after, edits[1..], e.start);
      if Disjoint(edits, |after|, x) {
        OneUndone(restored, after, e, Undone(after, edits[1..], e.start), x);
      }
    } else if edits == [] {
      assert restored == restored[..x] + restored[x..];
    }
  }

  lemma Stretch(restored: Bytes, after: Bytes, i: nat, x: nat)
    requires i <= x <= |restored| && x <= |after| && restored[..x] == after[..x]
    ensures restored[i..] == after[i..x] + restored[x..]
  {
    assert restored[i..x] == restored[..x][i..] == after[..x][i..] == after[i..x];
  }

  /** `_restore`: the edits are refused unless they are disjoint and in bounds; otherwise they are undone. */
  method Restore(after: Bytes, edits: seq<ReverseEdit>) returns (r: Result<Bytes>)
    ensures r.Ok? <==> Disjoint(SortedDown(edits), |after|, |after|)
    ensures r.Ok? ==> r.value == Undone(after, SortedDown(edits), |after|)
  {
    hide SortedDown;
    var ordered := SortedDown(edits);
    UndoDownIsUndone(after, after, ordered, |after|);
    assert after[..|after|] == after && after[|after|..] == [];
    Sentinel(after, ordered);
    var priorStart := |after| + 1;
    var restored := after;
    var k := 0;
    while k < |ordered|
      invariant k <= |ordered| && (k == 0 ==> restored == after) && (k > 0 ==> priorStart <= |restored|)
      invariant UndoDown(after, |after|, ordered, |after| + 1) == UndoDown(restored, |after|, ordered[k..], priorStart)
    {
      var e := ordered[k];
      assert ordered[k..][0] == e && ordered[k..][1..] == ordered[k + 1..];
      if e.start < 0 || e.end < e.start || e.end > |after| {
        return Err(ValueError);
      }
      if e.end > priorStart {
        return Err(ValueError);
      }
      restored := restored[..e.start] + e.replacement + restored[e.end..];
      priorStart := e.start;
      k := k + 1;
    }
    assert ordered[k..] == [];
    return Ok(restored);
  }

  /** The sentinel one past the end admits nothing that ends past the end. */
  lemma Sentinel(after: Bytes, edits: seq<ReverseEdit>)
    ensures UndoDown(after, |after|, edits, |after| + 1) == UndoDown(after, |after|, edits, |after|)
  {
  }

  // ---- Capturing ------------------------------------------------------------------------------------------

  predicate Restores(after: Bytes, edits: seq<ReverseEdit>, before: Bytes) {
    Disjoint(SortedDown(edits), |after|, |after|) && Undone(after, SortedDown(edits), |after|) == before
  }

  lemma OneEdit(after: Bytes, e: ReverseEdit, before: Bytes)
    requires Applicable(e, |after|, |after|) && after[..e.start] + e.replacement + after[e.end..] == before
    ensures Restores(after, [e], before)
  {
    assert [e][..0] == [] && SortedDown([e]) == [e];
    assert [e][1..] == [];
    assert after[e.end..|after|] == after[e.end..];
  }

  lemma NoEdit(after: Bytes)
    ensures Restores(after, [], after)
  {
    assert after[..|after|] == after;
  }

  /** Nothing at either end of the edit could have been left out of it. */
  predicate Tight(after: Bytes, e: ReverseEdit) {
    && 0 <= e.start <= e.end <= |after|
    && (e.start < e.end && e.replacement != [] ==>
          after[e.start] != e.replacement[0] && after[e.end - 1] != e.replacement[|e.replacement| - 1])
  }

  lemma FromBefore(b: Bytes, k: nat)
    requires k < |b|
    ensures b[k..] == [b[k]] + b[k + 1..]
  {
  }

  lemma MiddleEdit(before: Bytes, after: Bytes, i: nat, j: nat, m: nat)
    requires i <= j <= |before| && i <= m <= |after|
    requires before[..i] == after[..i] && before[j..] == after[m..]
    ensures Restores(after, [ReverseEdit(i, m, before[i..j])], before)
  {
    hide Restores;
    assert before == before[..i] + before[i..j] + before[j..];
    OneEdit(after, ReverseEdit(i, m, before[i..j]), before);
  }

  /** The one edit that takes `after` back to `before`: what lies between their common ends. */
  method ReverseEdits(before: Bytes, after: Bytes) returns (edits: seq<ReverseEdit>)
    ensures Restores(after, edits, before)
    ensures if before == after then edits == [] else |edits| == 1 && Tight(after, edits[0])
  {
    hide SortedDown, Restores;
    var prefix := 0;
    var commonLimit := if |before| < |after| then |before| else |after|;
    while prefix < commonLimit && before[prefix] == after[prefix]
      invariant prefix <= commonLimit && before[..prefix] == after[..prefix]
    {
      prefix := prefix + 1;
    }
    var suffix := 0;
    while suffix < commonLimit - prefix && before[|before| - suffix - 1] == after[|after| - suffix - 1]
      invariant suffix <= commonLimit - prefix && before[|before| - suffix..] == after[|after| - suffix..]
    {
      FromBefore(before, |before| - suffix - 1);
      FromBefore(after, |after| - suffix - 1);
      suffix := suffix + 1;
    }
    if before == after {
      NoEdit(after);
      return [];
    }
    var afterEnd, beforeEnd := |after| - suffix, |before| - suffix;
    var e := ReverseEdit(prefix, afterEnd, before[prefix..beforeEnd]);
    MiddleEdit(before, after, prefix, beforeEnd, afterEnd);
    return [e];
  }

  // ---- A list of proofs with an index ------------------------------------------------------------------------

  /** Exactly one proof per path, found through the index. */
  predicate Indexed(proofs: seq<FileProof>, indexes: map<Source, nat>) {
    && (forall path :: path in indexes ==> indexes[path] < |proofs| && proofs[indexes[path]].path == path)
    && (forall k :: 0 <= k < |proofs| ==> proofs[k].path in indexes && indexes[proofs[k].path] == k)
  }

  predicate ProofHolds(p: FileProof, before: map<Source, Bytes>, after: map<Source, Bytes>) {
    p.path in before && p.path in after && Restores(after[p.path], p.edits, before[p.path])
  }

  predicate AllHold(proofs: seq<FileProof>, before: map<Source, Bytes>, after: map<Source, Bytes>) {
    forall k :: 0 <= k < |proofs| ==> ProofHolds(proofs[k], before, after)
  }

  function Put(proofs: seq<FileProof>, indexes: map<Source, nat>, p: FileProof): (r: seq<FileProof>)
    requires Indexed(proofs, indexes)
    ensures |r| == |proofs| + if p.path in indexes then 0 else 1
  {
    if p.path in indexes then proofs[indexes[p.path] := p] else proofs + [p]
  }

  function PutIndex(proofs: seq<FileProof>, indexes: map<Source, nat>, p: FileProof): map<Source, nat> {
    if p.path in indexes then indexes else indexes[p.path := |proofs|]
  }

  lemma PutIndexed(proofs: seq<FileProof>, indexes: map<Source, nat>, p: FileProof)
    requires Indexed(proofs, indexes)
    ensures Indexed(Put(proofs, indexes, p), PutIndex(proofs, indexes, p))
  {
  }

  lemma PutHolds(proofs: seq<FileProof>, indexes: map<Source, nat>, p: FileProof, before: map<Source, Bytes>,
                 after: map<Source, Bytes>, before2: map<Source, Bytes>, after2: map<Source, Bytes>)
    requires Indexed(proofs, indexes) && AllHold(proofs, before, after) && ProofHolds(p, before2, after2)
    requires forall path :: path != p.path ==>
               (path in before ==> path in before2 && before2[path] == before[path]) &&
               (path in after ==> path in after2 && after2[path] == after[path])
    ensures AllHold(Put(proofs, indexes, p), before2, after2)
  {
    hide Restores;
    var all := Put(proofs, indexes, p);
    forall k | 0 <= k < |all| ensures ProofHolds(all[k], before2, after2) {
      if k < |proofs| && all[k] == proofs[k] && proofs[k].path != p.path {
        assert ProofHolds(proofs[k], before, after);
      } else {
        assert all[k] == p;
      }
    }
  }

  // ---- The converter's record ------------------------------------------------------------------------------

  /** The proof-bearing half of the converter's `Result`, with its staged writes. */
  class Conversion {
    /** What is on disk. */
    const disk: map<Source, Bytes>

    var beforeFiles: map<Source, Bytes>
    var afterFiles: map<Source, Bytes>
    var fileProofs: seq<FileProof>
    var indexes: map<Source, nat>
    var touchedFiles: set<Source>
    var staged: map<Source, Bytes>
    var replacements: nat

    constructor (disk: map<Source, Bytes>)
      ensures Valid() && this.disk == disk && touchedFiles == {}
    {
      this.disk := disk;
      beforeFiles, afterFiles, fileProofs, indexes := map[], map[], [], map[];
      touchedFiles, staged, replacements := {}, map[], 0;
    }

    function OnDisk(source: Source): Bytes {
      if source in disk then disk[source] else []
    }

    /** One proof per captured path, and it takes the latest bytes back to the first. */
    ghost predicate Proved()
      reads this`beforeFiles, this`afterFiles, this`fileProofs, this`indexes
    {
      && beforeFiles.Keys == afterFiles.Keys == indexes.Keys
      && Indexed(fileProofs, indexes) && AllHold(fileProofs, beforeFiles, afterFiles)
    }

    /** What was captured is what will be written, over what is on disk. */
    ghost predicate Valid()
      reads this
    {
      && Proved() && touchedFiles == beforeFiles.Keys && staged == afterFiles
      && forall path :: path in beforeFiles ==> beforeFiles[path] == OnDisk(path)
    }

    lemma KeysAgree()
      requires Proved()
      ensures beforeFiles.Keys == afterFiles.Keys == indexes.Keys
    {
    }

    /** `_capture_file_proof`: the first bytes ever seen are kept, the proof is replaced. */
    method CaptureFileProof(source: Source, before: Bytes, after: Bytes)
      requires Proved()
      modifies this`beforeFiles, this`afterFiles, this`fileProofs, this`indexes
      ensures Proved()
      ensures beforeFiles == if source in old(beforeFiles) then old(beforeFiles) else old(beforeFiles)[source := before]
      ensures afterFiles == old(afterFiles)[source := after]
      ensures |fileProofs| == |old(fileProofs)| + if source in old(indexes) then 0 else 1
    {
      hide Restores, Indexed, AllHold, Tight;
      var first := if source in beforeFiles then beforeFiles[source] else before;
      var edits := ReverseEdits(first, after);
      var proof := FileProof(source, edits);
      var proofs, index := fileProofs, indexes;
      IndexInside(proofs, index);
      if source !in index {
        proofs, index := proofs + [proof], index[source := |proofs|];
      } else {
        proofs := proofs[index[source] := proof];
      }
      Captured(fileProofs, indexes, proof, beforeFiles, afterFiles, first, after, proofs, index);
      beforeFiles, afterFiles := beforeFiles[source := first], afterFiles[source := after];
      fileProofs, indexes := proofs, index;
    }

    lemma Captured(proofs: seq<FileProof>, index: map<Source, nat>, p: FileProof, before: map<Source, Bytes>,
                   after: map<Source, Bytes>, first: Bytes, latest: Bytes, proofs2: seq<FileProof>,
                       index2: map<Source, nat>)
      requires before.Keys == after.Keys == index.Keys && Indexed(proofs, index) && AllHold(proofs, before, after)
      requires Restores(latest, p.edits, first) && (p.path in before ==> before[p.path] == first)
      requires proofs2 == Put(proofs, index, p) && index2 == PutIndex(proofs, index, p)
      ensures before[p.path := first].Keys == after[p.path := latest].Keys == index2.Keys
      ensures Indexed(proofs2, index2) && AllHold(proofs2, before[p.path := first], after[p.path := latest])
      ensures |proofs2| == |proofs| + if p.path in index then 0 else 1
      ensures p.path in before ==> before[p.path := first] == before
    {
      hide Restores, Indexed, AllHold;
      PutIndexed(proofs, index, p);
      PutHolds(proofs, index, p, before, after, before[p.path := first], after[p.path := latest]);
    }

    lemma IndexInside(proofs: seq<FileProof>, indexes: map<Source, nat>)
      requires Indexed(proofs, indexes)
      ensures forall path :: path in indexes ==> indexes[path] < |proofs|
    {
    }

    /** One file converted: its new text is staged and its proof captured. */
    method ConvertFile(source: Source, converted: Bytes)
      requires Valid() && source !in touchedFiles
      modifies this`beforeFiles, this`afterFiles, this`fileProofs, this`indexes, this`touchedFiles, this`staged
      ensures Valid() && touchedFiles == old(touchedFiles) + {source}
      ensures staged == old(staged)[source := converted]
    {
      hide Indexed, AllHold;
      touchedFiles := touchedFiles + {source};
      CaptureFileProof(source, OnDisk(source), converted);
      staged := staged[source := converted];
    }

    /** One path of the identifier rewrite: on top of what is staged, or of what is on disk. */
    method RewriteFile(path: Source, rewrite: Bytes -> (Bytes, nat))
      requires Valid() && path in disk
      modifies this
      ensures Valid()
      ensures var (after, count) := rewrite(Current(old(staged), path));
              && touchedFiles == old(touchedFiles) + (if count != 0 then {path} else {})
              && staged == if count != 0 then old(staged)[path := after] else old(staged)
    {
      hide Indexed, AllHold, Proved;
      KeysAgree();
      var before := if path in beforeFiles then beforeFiles[path] else disk[path];
      var current := if path in staged then staged[path] else before;
      var (after, count) := rewrite(current);
      if count != 0 {
        replacements := replacements + count;
        touchedFiles := touchedFiles + {path};
        CaptureFileProof(path, before, after);
        staged := staged[path := after];
      }
    }

    /** What a path holds once the rewrite has been over it. */
    function Rewritten(writes: map<Source, Bytes>, path: Source, rewrite: Bytes -> (Bytes, nat)): Bytes {
      var (after, count) := rewrite(Current(writes, path));
      if count != 0 then after else Current(writes, path)
    }

    /** The paths a rewrite of these writes changes. */
    ghost function Changed(writes: map<Source, Bytes>, paths: seq<Source>,
        rewrite: Bytes -> (Bytes, nat)): set<Source> {
      set path | path in paths && rewrite(Current(writes, path)).1 != 0
    }

    /** Every listed path holds its rewritten bytes, every other path what it held. */
    ghost predicate Swept(was: map<Source, Bytes>, now: map<Source, Bytes>, paths: seq<Source>,
                          rewrite: Bytes -> (Bytes, nat))
    {
      forall path :: Current(now, path) == if path in paths then Rewritten(was, path, rewrite) else Current(was, path)
    }

    lemma SweepNothing(was: map<Source, Bytes>, rewrite: Bytes -> (Bytes, nat))
      ensures Swept(was, was, [], rewrite) && Changed(was, [], rewrite) == {}
    {
    }

    lemma SweepStep(was: map<Source, Bytes>, now: map<Source, Bytes>, done: seq<Source>, path: Source,
                    rewrite: Bytes -> (Bytes, nat))
      requires Swept(was, now, done, rewrite) && path !in done
      ensures var (after, count) := rewrite(Current(now, path));
              && Swept(was, if count != 0 then now[path := after] else now, done + [path], rewrite)
              && Changed(was, done + [path], rewrite) == Changed(was, done, rewrite) + if count != 0 then {path} else {}
    {
      assert Current(now, path) == Current(was, path);
    }

    /** `_stage_identifier_base_rewrite`, over whatever the conversion staged. */
    method StageIdentifierBaseRewrite(paths: seq<Source>, rewrite: Bytes -> (Bytes, nat))
      requires Valid() && forall k :: 0 <= k < |paths| ==> paths[k] in disk
      requires forall i, j :: 0 <= i < j < |paths| ==> paths[i] != paths[j]
      modifies this
      ensures Valid()
      ensures touchedFiles == old(touchedFiles) + Changed(old(staged), paths, rewrite)
      ensures Swept(old(staged), staged, paths, rewrite)
    {
      hide Indexed, AllHold, Proved, Valid, Changed, Swept;
      ghost var was := staged;
      SweepNothing(was, rewrite);
      var k := 0;
      while k < |paths|
        invariant k <= |paths| && Valid()
        invariant touchedFiles == old(touchedFiles) + Changed(was, paths[..k], rewrite)
        invariant Swept(was, staged, paths[..k], rewrite)
      {
        assert paths[..k + 1] == paths[..k] + [paths[k]] && paths[k] !in paths[..k];
        SweepStep(was, staged, paths[..k], paths[k], rewrite);
        RewriteFile(paths[k], rewrite);
        k := k + 1;
      }
      assert paths[..|paths|] == paths;
    }

    /** The bytes a later stage sees. */
    function Current(writes: map<Source, Bytes>, path: Source): Bytes {
      if path in writes then writes[path] else OnDisk(path)
    }

    /** The coverage and byte half of `file_round_trip`, on this converter's own record. */
    method FileRoundTrip() returns (passed: bool)
      requires Valid()
      ensures passed
    {
      hide Restores;
      passed := RoundTrip(touchedFiles, beforeFiles, afterFiles, fileProofs);
      IndexedIsOneEach(fileProofs, indexes);
    }
  }

  lemma IndexedIsOneEach(proofs: seq<FileProof>, indexes: map<Source, nat>)
    requires Indexed(proofs, indexes)
    ensures OneEach(proofs) && Paths(proofs) == indexes.Keys
  {
    forall path | path in indexes ensures path in Paths(proofs) {
      assert proofs[indexes[path]].path == path;
    }
  }

  predicate OneEach(proofs: seq<FileProof>) {
    forall i, j :: 0 <= i < j < |proofs| ==> proofs[i].path != proofs[j].path
  }

  function Paths(proofs: seq<FileProof>): set<Source> {
    set k | 0 <= k < |proofs| :: proofs[k].path
  }

  /** What the round-trip check passes: full coverage, one proof per path, and every byte restored. */
  predicate Covered(touched: set<Source>, before: map<Source, Bytes>, after: map<Source, Bytes>,
      proofs: seq<FileProof>) {
    && before.Keys == touched && after.Keys == touched && Paths(proofs) == touched && OneEach(proofs)
    && AllHold(proofs, before, after)
  }

  /** The round trip's dictionary of proofs; `None` when a path occurs twice. */
  method ProofsByPath(proofs: seq<FileProof>) returns (byPath: Option<set<Source>>)
    ensures byPath.Some? <==> OneEach(proofs)
    ensures byPath.Some? ==> byPath.value == Paths(proofs)
  {
    var seen: set<Source> := {};
    var k := 0;
    while k < |proofs|
      invariant k <= |proofs| && seen == Paths(proofs[..k]) && OneEach(proofs[..k])
    {
      assert proofs[..k + 1] == proofs[..k] + [proofs[k]];
      if proofs[k].path in seen {
        var m :| 0 <= m < k && proofs[..k][m].path == proofs[k].path;
        return None;
      }
      OneMorePath(proofs[..k], proofs[k]);
      seen := seen + {proofs[k].path};
      k := k + 1;
    }
    assert proofs[..|proofs|] == proofs;
    return Some(seen);
  }

  lemma OneMorePath(proofs: seq<FileProof>, p: FileProof)
    ensures Paths(proofs + [p]) == Paths(proofs) + {p.path}
    ensures OneEach(proofs) && p.path !in Paths(proofs) ==> OneEach(proofs + [p])
  {
    var all := proofs + [p];
    forall path | path in Paths(proofs) + {p.path} ensures path in Paths(all) {
      if path == p.path {
        assert all[|proofs|] == p;
      } else {
        var k :| 0 <= k < |proofs| && proofs[k].path == path;
        assert all[k] == proofs[k];
      }
    }
  }

  /** `file_round_trip` up to the date proofs: it passes exactly on a covered record. */
  method RoundTrip(touched: set<Source>, before: map<Source, Bytes>, after: map<Source, Bytes>, proofs: seq<FileProof>)
    returns (passed: bool)
    ensures passed <==> Covered(touched, before, after, proofs)
  {
    hide SortedDown, Disjoint, Undone;
    var byPath := ProofsByPath(proofs);
    if byPath.None? || before.Keys != touched || after.Keys != touched || byPath.value != touched {
      return false;
    }
    var k := 0;
    passed := true;
    while k < |proofs|
      invariant k <= |proofs|
      invariant passed <==> forall m :: 0 <= m < k ==> ProofHolds(proofs[m], before, after)
    {
      var path := proofs[k].path;
      assert path in Paths(proofs);
      var restored := Restore(after[path], proofs[k].edits);
      if restored.Err? || restored.value != before[path] {
        passed := false;
      }
      k := k + 1;
    }
  }
}
