/** Ref stores, the maps read from them, the delta checks and the reported outcome. */
module CanonicalRefs {
  import opened Text

  type Ref = string
  type Sha = string

  datatype Verb = Forward | Restore

  datatype Operation = Operation(verb: Verb, remote: string, fromSha: Sha, toSha: Sha, dryRun: bool)

  const MAIN: Ref := "refs/heads/main"

  function Tracking(op: Operation): Ref {
    "refs/remotes/" + op.remote + "/main"
  }

  lemma TrackingIsNotMain(op: Operation)
    ensures Tracking(op) != MAIN
  {
    assert Tracking(op)[5] == 'r' && MAIN[5] == 'h';
  }

  // ---- Ref stores ------------------------------------------------------------------------------------

  datatype Target = Direct(sha: Sha) | Symbolic(ref: Ref)

  type Store = map<Ref, Target>

  /** Git gives up on longer chains of symbolic refs. */
  const MAX_CHAIN: nat := 5

  predicate BothAt(op: Operation, store: Store, sha: Sha) {
    && MAIN in store && store[MAIN] == Direct(sha)
    && Tracking(op) in store && store[Tracking(op)] == Direct(sha)
  }

  /** The direct ref behind `ref`, if there is one. */
  function Final(store: Store, ref: Ref, fuel: nat): (f: Option<Ref>)
    ensures f.Some? ==> f.value in store && store[f.value].Direct?
    decreases fuel
  {
    if ref !in store || fuel == 0 then None
    else match store[ref] case Direct(_) => Some(ref) case Symbolic(next) => Final(store, next, fuel - 1)
  }

  /** Symbolic refs, each the target of the one before it, that end in a direct one. */
  predicate Chain(store: Store, chain: seq<Ref>, first: Ref, last: Ref) {
    && chain != [] && chain[0] == first && first in store
    && if |chain| == 1 then store[first].Direct? && first == last
       else store[first].Symbolic? && Chain(store, chain[1..], store[first].ref, last)
  }

  lemma {:induction false} FinalIsExact(store: Store, first: Ref, last: Ref, fuel: nat)
    ensures Final(store, first, fuel) == Some(last) <==>
            exists chain :: |chain| <= fuel && Chain(store, chain, first, last)
    decreases fuel
  {
    if first in store && fuel > 0 && store[first].Symbolic? {
      var next := store[first].ref;
      FinalIsExact(store, next, last, fuel - 1);
      if chain :| |chain| <= fuel - 1 && Chain(store, chain, next, last) {
        assert ([first] + chain)[1..] == chain;
        assert Chain(store, [first] + chain, first, last);
      }
      if chain :| |chain| <= fuel && Chain(store, chain, first, last) {
        assert Chain(store, chain[1..], next, last);
      }
    } else if first in store && fuel > 0 {
      assert Chain(store, [first], first, first);
    }
  }

  /** `git rev-parse`. */
  function ShaOf(store: Store, ref: Ref): Option<Sha> {
    match Final(store, ref, MAX_CHAIN) case None => None case Some(f) => Some(store[f].sha)
  }

  /** A line of `git for-each-ref`: the resolved SHA and, for a symbolic ref, its target. */
  datatype RefState = RefState(sha: Sha, symref: Option<Ref>)

  type RefMap = map<Ref, RefState>

  function Show(store: Store): RefMap {
    map ref | ref in store && ShaOf(store, ref).Some? ::
      RefState(ShaOf(store, ref).value, if store[ref].Direct? then None else Some(store[ref].ref))
  }

  /** Every ref leads somewhere. */
  predicate Whole(store: Store) {
    forall ref :: ref in store ==> ShaOf(store, ref).Some?
  }

  // ---- The delta checks --------------------------------------------------------------------------------

  /** One ref under `_require_local_ref_delta`. */
  predicate StateMoved(op: Operation, ref: Ref, was: RefState, now: RefState, expected: Sha) {
    if Transitions(op, ref) then
      was == RefState(op.fromSha, None) && now == RefState(expected, None)
    else if was.symref.Some? || now.symref.Some? then was.symref == now.symref
    else was.sha == now.sha
  }

  predicate LocalDelta(op: Operation, before: RefMap, after: RefMap, expected: Sha) {
    && before != map[] && after != map[] && before.Keys == after.Keys
    && forall ref :: ref in before ==> StateMoved(op, ref, before[ref], after[ref], expected)
  }

  /** `_require_remote_ref_delta`. */
  predicate RemoteDelta(before: map<Ref, Sha>, after: map<Ref, Sha>) {
    && before != map[] && after != map[]
    && (forall ref :: ref in before && ref != MAIN ==> ref in after && after[ref] == before[ref])
    && (forall ref :: ref in after && ref != MAIN ==> ref in before)
  }

  predicate Transitions(op: Operation, ref: Ref) {
    ref == MAIN || ref == Tracking(op)
  }

  /** The store with the transitioning refs at `sha`. */
  function Moved(op: Operation, store: Store, sha: Sha): Store {
    map ref | ref in store :: if Transitions(op, ref) then Direct(sha) else store[ref]
  }

  predicate AtFrom(op: Operation, store: Store) {
    forall ref :: ref in store && Transitions(op, ref) ==> store[ref] == Direct(op.fromSha)
  }

  lemma {:induction false} FinalKept(op: Operation, store: Store, sha: Sha, ref: Ref, fuel: nat)
    requires AtFrom(op, store)
    ensures Final(Moved(op, store, sha), ref, fuel) == Final(store, ref, fuel)
    decreases fuel
  {
    hide Transitions;
    if ref in store && fuel > 0 {
      if Transitions(op, ref) {
        assert store[ref].Direct?;
      } else if store[ref].Symbolic? {
        FinalKept(op, store, sha, store[ref].ref, fuel - 1);
      }
    }
  }

  lemma MovedIsWhole(op: Operation, store: Store, sha: Sha)
    requires Whole(store) && AtFrom(op, store)
    ensures Whole(Moved(op, store, sha))
  {
    hide Final, Transitions;
    forall ref | ref in store ensures ShaOf(Moved(op, store, sha), ref).Some? {
      FinalKept(op, store, sha, ref, MAX_CHAIN);
      assert ShaOf(store, ref).Some?;
    }
  }

  /** What the check of one ref's map entries says about the store. */
  lemma RefDelta(op: Operation, before: Store, after: Store, ref: Ref, sha: Sha)
    requires Whole(before) && Whole(after) && ref in before && ref in after
    ensures StateMoved(op, ref, Show(before)[ref], Show(after)[ref], sha) <==>
            (if Transitions(op, ref) then before[ref] == Direct(op.fromSha) && after[ref] == Direct(sha)
             else before[ref] == after[ref])
  {
    hide Transitions;
    var was, now := Show(before)[ref], Show(after)[ref];
    assert before[ref].Direct? ==> was == RefState(before[ref].sha, None);
    assert after[ref].Direct? ==> now == RefState(after[ref].sha, None);
  }

  /**
   The local check reads maps, but decides about stores: it passes exactly when the two transitioning
   refs went from `--from` to the expected SHA and every other ref, symbolic or not, is untouched.
   */
  lemma LocalDeltaIsExact(op: Operation, before: Store, after: Store, sha: Sha)
    requires Whole(before) && Whole(after) && before != map[]
    ensures LocalDelta(op, Show(before), Show(after), sha) <==> AtFrom(op, before) && after == Moved(op, before, sha)
  {
    hide ShaOf, StateMoved, Transitions;
    var ref0 :| ref0 in before;
    assert Show(before).Keys == before.Keys && Show(after).Keys == after.Keys;
    assert ref0 in Show(before);
    forall ref | ref in before && ref in after
      ensures StateMoved(op, ref, Show(before)[ref], Show(after)[ref], sha) <==>
              (if Transitions(op, ref) then before[ref] == Direct(op.fromSha) && after[ref] == Direct(sha)
               else before[ref] == after[ref])
    {
      RefDelta(op, before, after, ref, sha);
    }
    if LocalDelta(op, Show(before), Show(after), sha) {
      assert after.Keys == before.Keys;
      forall ref | ref in before
        ensures after[ref] == Moved(op, before, sha)[ref]
                && (Transitions(op, ref) ==> before[ref] == Direct(op.fromSha))
      {
        assert ref in Show(before);
      }
    }
    if AtFrom(op, before) && after == Moved(op, before, sha) {
      assert after.Keys == before.Keys;
      assert ref0 in Show(after);
    }
  }

  lemma SameMapSameStore(before: Store, after: Store)
    requires Whole(before) && Whole(after)
    ensures Show(before) == Show(after) <==> before == after
  {
    hide ShaOf;
    assert Show(before).Keys == before.Keys && Show(after).Keys == after.Keys;
    if Show(before) == Show(after) {
      forall ref | ref in before ensures before[ref] == after[ref] {
        assert Show(before)[ref] == Show(after)[ref];
        assert before[ref].Direct? ==> ShaOf(before, ref) == Some(before[ref].sha) by { DirectSha(before, ref); }
        assert after[ref].Direct? ==> ShaOf(after, ref) == Some(after[ref].sha) by { DirectSha(after, ref); }
      }
    }
  }

  lemma DirectSha(store: Store, ref: Ref)
    ensures ref in store && store[ref].Direct? ==> ShaOf(store, ref) == Some(store[ref].sha)
  {
  }

  /** The remote check with the main readback: the remote is what it was, with main moved. */
  lemma RemoteDeltaIsExact(before: map<Ref, Sha>, after: map<Ref, Sha>, sha: Sha)
    requires MAIN in before
    ensures RemoteDelta(before, after) && MAIN in after && after[MAIN] == sha <==> after == before[MAIN := sha]
  {
    if RemoteDelta(before, after) && MAIN in after && after[MAIN] == sha {
      assert after.Keys == before[MAIN := sha].Keys;
    }
    if after == before[MAIN := sha] {
      assert MAIN in after;
    }
  }

  // ---- Ledger, own writes, outcome -----------------------------------------------------------------------

  datatype Mutation = LocalMainCas | WorktreeAlignment | RemoteMainCas | TrackingMainCas

  function Intended(op: Operation): seq<Mutation> {
    match op.verb
    case Forward => [LocalMainCas, WorktreeAlignment, RemoteMainCas, TrackingMainCas]
    case Restore => [RemoteMainCas, LocalMainCas, WorktreeAlignment, TrackingMainCas]
  }

  datatype Place = LocalMain | RemoteMain | TrackingMain

  /** A ref write this run made: where, and which SHA it found and left. */
  datatype Write = Write(place: Place, before: Sha, after: Sha)

  /**
   The ref writes a ledger stands for.  Aligning the worktree writes no ref, and neither does a push that finds its
   target there already.
   */
  function OwnWrites(op: Operation, ledger: seq<Mutation>, found: bool): seq<Write> {
    if ledger == [] then []
    else
      var earlier := OwnWrites(op, ledger[..|ledger| - 1], found);
      match ledger[|ledger| - 1]
      case LocalMainCas => earlier + [Write(LocalMain, op.fromSha, op.toSha)]
      case RemoteMainCas => if found then earlier else earlier + [Write(RemoteMain, op.fromSha, op.toSha)]
      case TrackingMainCas => earlier + [Write(TrackingMain, op.fromSha, op.toSha)]
      case WorktreeAlignment => earlier
  }

  lemma OneMore(op: Operation, ledger: seq<Mutation>, m: Mutation, found: bool)
    ensures OwnWrites(op, ledger + [m], found) == OwnWrites(op, ledger, found) + OwnWrites(op, [m], found)
    ensures |OwnWrites(op, [m], found)| <= 1
  {
    assert (ledger + [m])[..|ledger|] == ledger;
    assert [m][..0] == [];
  }

  /** A shorter ledger stands for fewer writes, in the same order. */
  lemma {:induction false} WritesGrow(op: Operation, ledger: seq<Mutation>, longer: seq<Mutation>, found: bool)
    requires ledger <= longer
    ensures OwnWrites(op, ledger, found) <= OwnWrites(op, longer, found)
    decreases |longer|
  {
    if |ledger| < |longer| {
      WritesGrow(op, ledger, longer[..|longer| - 1], found);
    } else {
      assert ledger == longer;
    }
  }

  /** Before the push it makes no difference what the push will find. */
  lemma {:induction false} NotPushed(op: Operation, ledger: seq<Mutation>)
    requires RemoteMainCas !in ledger
    ensures OwnWrites(op, ledger, true) == OwnWrites(op, ledger, false)
    decreases |ledger|
  {
    if ledger != [] {
      NotPushed(op, ledger[..|ledger| - 1]);
    }
  }

  datatype Outcome =
    Incomplete | LandedVerificationIncomplete | NotAttempted | NotLanded | Succeeded | TargetAlreadyPresent
        | Undetermined

  datatype Readback = Readback(head: Option<Sha>, local: Option<Sha>, remote: Option<Sha>)

  function AllAt(sha: Sha): Readback {
    Readback(Some(sha), Some(sha), Some(sha))
  }

  predicate NoneContradicts(readback: Readback, sha: Sha) {
    && (readback.head.Some? ==> readback.head == Some(sha))
    && (readback.local.Some? ==> readback.local == Some(sha))
    && (readback.remote.Some? ==> readback.remote == Some(sha))
  }

  /** `_transition_outcome`. */
  function TransitionOutcome(op: Operation, mutations: seq<Mutation>, readback: Readback, unexpected: bool,
                             attempted: bool): Outcome
  {
    var targetObserved := readback == AllAt(op.toSha);
    var complete := mutations == Intended(op);
    if op.dryRun then NotAttempted
    else if complete && targetObserved && !unexpected then Succeeded
    else if mutations == [] && targetObserved then TargetAlreadyPresent
    else if targetObserved || (complete && NoneContradicts(readback, op.toSha)) then LandedVerificationIncomplete
    else if mutations == [] && attempted && readback.remote.None? then Incomplete
    else if mutations == [] then NotLanded
    else Incomplete
  }

  /** All four mutations, in the order of the verb. */
  predicate Complete(op: Operation, ledger: seq<Mutation>) {
    ledger == if op.verb == Forward
              then [LocalMainCas, WorktreeAlignment, RemoteMainCas, TrackingMainCas]
              else [RemoteMainCas, LocalMainCas, WorktreeAlignment, TrackingMainCas]
  }

  /** What a failed run is told about, from its ledger, what was read back and whether the push was begun. */
  predicate Judged(op: Operation, ledger: seq<Mutation>, readback: Readback, attempted: bool, outcome: Outcome) {
    var landed := readback.head == Some(op.toSha) && readback.local == Some(op.toSha) &&
                  readback.remote == Some(op.toSha);
    var denied := readback.head !in {None, Some(op.toSha)} || readback.local !in {None, Some(op.toSha)} ||
                  readback.remote !in {None, Some(op.toSha)};
    && (outcome == NotAttempted <==> op.dryRun)
    && (!op.dryRun ==>
          && outcome in {TargetAlreadyPresent, LandedVerificationIncomplete, NotLanded, Incomplete}
          && (outcome == TargetAlreadyPresent <==> ledger == [] && landed)
          && (outcome == LandedVerificationIncomplete <==>
              ledger != [] && (landed || (Complete(op, ledger) && !denied)))
          && (outcome == NotLanded <==> ledger == [] && !landed && (attempted ==> readback.remote.Some?))
          && (outcome == Incomplete <==>
              if ledger == [] then attempted && readback.remote.None?
              else !landed && (!Complete(op, ledger) || denied)))
  }

  lemma OutcomeIsExact(op: Operation, ledger: seq<Mutation>, readback: Readback, attempted: bool)
    ensures Judged(op, ledger, readback, attempted, TransitionOutcome(op, ledger, readback, true, attempted))
  {
  }

  lemma SuccessIsExact(op: Operation, ledger: seq<Mutation>, readback: Readback)
    requires op.dryRun || (ledger == Intended(op) && readback == AllAt(op.toSha))
    ensures TransitionOutcome(op, ledger, readback, false, false) == if op.dryRun then NotAttempted else Succeeded
  {
  }
}
