/** The compare-and-swap run over local main, remote main and the tracking ref. */
module CanonicalRefCas {
  // Between any two Git steps third parties may move any ref, as an arbitrary `Environment` says; any step may
  // fail or be interrupted; a push that failed may have landed, or land later.  Two assumptions can be switched on
  // for a run: `atomicSteps` (a local step that raises has had no effect, and its ledger entry follows at once) and
  // `remoteQuiet` (nothing reaches remote main once the push was begun, except the push itself before it returns).
  // A `Course` other than `Anything` fixes what happens: nothing disturbs the run, but for the slip that it names.
  //
  // Every state the refs go through is written down with what brought it about.  The claims about writes, about
  // the stores a check was decided on and about what a run left alone are claims about that chronicle.

  import opened Text
  import opened CanonicalRefs
  import opened CanonicalRefWorld

  datatype Verdict = Success | Warning | Error

  datatype Course =
    | Anything
    | Calm
    | /** The `update-ref` of local main takes effect, and the run is interrupted before it is recorded. */
      SilentUpdate
    | /** The push raises, and will land when the run is over. */
      LatePush

  /** What a run looks at, in the order in which it does. */
  datatype Check =
    | OperationValid | MainCheckedOut | MainAtFrom | RemoteAtFrom
    | TrackingAtFrom | TransitionValid | RefsAsBefore | RemoteBaseline | PushProbed
    | NoOtherWorktree | RefsStillAsBefore
    | MainNotShared | MainStillAtFrom | MainMoved | MainAligned
    | TrackingMoved
    | UrlUnchanged | MainReadable | RemoteFinal | WorktreesFinal | CheckoutFinal | LocalFinal | AllAtExpected

  const BASELINE: seq<Check> :=
    [OperationValid, MainCheckedOut, MainAtFrom, RemoteAtFrom,
     TrackingAtFrom, TransitionValid, RefsAsBefore, RemoteBaseline, PushProbed]

  /** The checks around the mutations; those of local main come before or after the push, which has none. */
  const MUTATION: seq<Check> :=
    [NoOtherWorktree, RefsStillAsBefore, MainNotShared, MainStillAtFrom, MainMoved, MainAligned, TrackingMoved]

  const FINAL: seq<Check> :=
    [UrlUnchanged, MainReadable, RemoteFinal, WorktreesFinal, CheckoutFinal, LocalFinal, AllAtExpected]

  function AllChecks(op: Operation): seq<Check> {
    BASELINE + (if op.dryRun then [] else MUTATION) + FINAL
  }

  lemma ChecksJoin(xs: seq<Check>, a: Check, b: Check, c: Check, d: Check)
    ensures xs + [a] + [b] == xs + [a, b] && xs + [a] + [b] + [c] == xs + [a, b, c]
    ensures xs + [a] + [b] + [c] + [d] == xs + [a, b, c, d]
  {
  }

  lemma BaselineJoins(xs: seq<Check>)
    ensures xs + [OperationValid, MainCheckedOut, MainAtFrom, RemoteAtFrom] +
            [TrackingAtFrom, TransitionValid, RefsAsBefore] + [RemoteBaseline] + [PushProbed] == xs + BASELINE
  {
  }

  lemma MutationJoins(xs: seq<Check>)
    ensures xs + [NoOtherWorktree, RefsStillAsBefore] + [MainNotShared, MainStillAtFrom, MainMoved, MainAligned] +
            [TrackingMoved] == xs + MUTATION
  {
  }

  lemma FinalJoins(xs: seq<Check>)
    ensures xs + [UrlUnchanged, MainReadable, RemoteFinal, WorktreesFinal] + [CheckoutFinal, LocalFinal, AllAtExpected]
            == xs + FINAL
  {
  }

  datatype Receipt = Receipt(result: Verdict, outcome: Outcome, readback: Readback, reconciled: bool)

  /** What a run that succeeds needs to find. */
  ghost predicate Ready(op: Operation, w: World) {
    && op.fromSha != op.toSha && Whole(w.local) && BothAt(op, w.local, op.fromSha)
    && w.head == Symbolic(MAIN) && w.worktree == op.fromSha
    && w.remoteHead == MAIN && RemoteSha(w) == Some(op.fromSha)
  }

  lemma ReadyShows(op: Operation, w: World)
    requires Ready(op, w)
    ensures HeadSha(w) == Some(op.fromSha) && ShaOf(w.local, MAIN) == Some(op.fromSha)
    ensures MAIN in w.remote && w.remote[MAIN] == op.fromSha
    ensures Tracking(op) in Show(w.local) && Show(w.local)[Tracking(op)] == RefState(op.fromSha, None)
  {
    DirectSha(w.local, MAIN);
    DirectSha(w.local, Tracking(op));
  }

  /** What a calm run makes of the store it found. */
  lemma CalmStore(op: Operation, store: Store)
    requires Whole(store) && BothAt(op, store, op.fromSha)
    ensures AtFrom(op, store) && Whole(Moved(op, store, op.toSha))
    ensures store[MAIN := Direct(op.toSha)][Tracking(op) := Direct(op.toSha)] == Moved(op, store, op.toSha)
    ensures ShaOf(store, MAIN) == Some(op.fromSha) && ShaOf(Moved(op, store, op.toSha), MAIN) == Some(op.toSha)
  {
    hide Whole;
    MovedIsWhole(op, store, op.toSha);
  }

  lemma DirectMain(store: Store)
    ensures MAIN in store && store[MAIN].Direct? ==> ShaOf(store, MAIN) == Some(store[MAIN].sha)
  {
  }

  class Repository {
    const op: Operation
    const course: Course
    const atomicSteps: bool
    const remoteQuiet: bool
    const others: Environment

    var now: World
    /** How often third parties had their turn. */
    var turn: nat

    var mutations: seq<Mutation>
    var validated: bool
    var attempted: bool
    /** A push that was given up and may still reach the remote. */
    var inFlight: Option<Write>
    /** The push had nothing to do: remote main was at its target already. */
    var found: bool
    /** The checks that were passed. */
    ghost var checks: seq<Check>
    /** The ref writes this run really made. */
    ghost var log: seq<Write>
    ghost var history: seq<Moment>

    constructor (op: Operation, course: Course, atomicSteps: bool, remoteQuiet: bool, others: Environment, now: World)
      ensures this.op == op && this.course == course && this.atomicSteps == atomicSteps
      ensures this.remoteQuiet == remoteQuiet && this.others == others && this.now == now && Fresh() && Told()
      ensures history == [Moment(now, Others(0))]
    {
      this.op, this.course, this.atomicSteps, this.remoteQuiet, this.now := op, course, atomicSteps, remoteQuiet, now;
      this.others, turn := others, 0;
      mutations, validated, attempted, inFlight, found, log := [], false, false, None, false, [];
      history, checks := [Moment(now, Others(0))], [];
      assert [Moment(now, Others(0))][..0] == [];
    }

    ghost predicate Fresh()
      reads this`mutations, this`validated, this`attempted, this`inFlight, this`found, this`log, this`checks
    {
      checks == [] && mutations == [] && !validated && !attempted && inFlight.None? && !found && log == []
    }

    /** The chronicle is up to date, and the log is what it says this run wrote. */
    ghost predicate Told()
      reads this`now, this`history, this`log, this`found
    {
      && (found ==> WasThere(op, history)) && history != [] && Chronicle(op, others, history) && log == Made(history)
      && history[|history| - 1].world == now
    }

    /** Nobody interferes, and only the step the course names fails. */
    predicate Still() {
      !course.Anything?
    }

    /** The run's own bookkeeping is its own, and what is written down stays. */
    twostate predicate Kept()
      reads this`mutations, this`attempted, this`validated, this`found, this`history
    {
      && mutations == old(mutations) && attempted == old(attempted) && validated == old(validated)
      && found == old(found) && old(history) <= history
    }

    /** Whatever third parties and a push in flight can do between two steps of this run. */
    twostate predicate Disturbed()
      reads this
    {
      && Kept() && Told()
      && (Still() ==> now == old(now) && inFlight == old(inFlight))
      && (remoteQuiet && attempted ==> log == old(log) && RemoteSha(now) == old(RemoteSha(now)))
      && (inFlight.Some? ==> inFlight == old(inFlight))
      && (log == old(log) ||
          (old(inFlight).Some? && inFlight.None? && log == old(log) + [old(inFlight).value]))
    }

    /** The same, and no check was passed. */
    twostate predicate Unchecked()
      reads this
    {
      Disturbed() && checks == old(checks)
    }

    /** This check was passed, or none. */
    twostate predicate Checked(passed: bool, check: Check)
      reads this`checks
    {
      checks == old(checks) + if passed then [check] else []
    }

    /** A check is passed. */
    ghost method Mark(check: Check)
      modifies this`checks
      ensures checks == old(checks) + [check]
    {
      checks := checks + [check];
    }

    /** The present state goes into the chronicle. */
    ghost method Note(cause: Cause)
      requires Chronicle(op, others, history) && log == Made(history) && (found ==> WasThere(op, history))
      requires Explained(op, others, history[|history| - 1].world, now, cause)
      modifies this`history, this`log
      ensures Told() && history == old(history) + [Moment(now, cause)]
      ensures log == old(log) + match cause case Own(write) => [write] case _ => []
    {
      hide Chronicle, Made, Explained, WasThere;
      ChronicleGrows(op, others, history, Moment(now, cause));
      StillWasThere(op, history, Moment(now, cause));
      history := history + [Moment(now, cause)];
      log := Made(history);
    }

    lemma StillWasThere(op: Operation, history: seq<Moment>, m: Moment)
      ensures WasThere(op, history) ==> WasThere(op, history + [m])
    {
      if k :| 0 <= k < |history| && RemoteSha(history[k].world) == Some(op.toSha) {
        assert (history + [m])[k] == history[k];
      }
    }

    /** Third parties have their turn, and a push in flight may land. */
    method Interfere()
      requires Told()
      modifies this
      ensures Unchecked()
    {
      hide Chronicle, Made, ShaAt, WithSha;
      if Still() {
        return;
      }
      var lands: bool := *;
      var was := now;
      now := others(turn, was);
      if remoteQuiet && attempted {
        now := Hushed(was, now);
      }
      Note(Others(turn));
      turn := turn + 1;
      if !(remoteQuiet && attempted) && inFlight.Some? && lands {
        Land();
      }
    }

    /** A push in flight reaches the remote, where the lease is checked. */
    method Land()
      requires Told() && inFlight.Some?
      modifies this`now, this`history, this`log, this`inFlight
      ensures Told() && old(history) <= history
      ensures if old(ShaAt(op, now, inFlight.value.place) == Some(inFlight.value.before))
              then inFlight.None? && log == old(log) + [old(inFlight).value] &&
                   history == old(history) + [Moment(now, Own(old(inFlight).value))] &&
                   Wrote(op, old(now), now, old(inFlight).value)
              else inFlight == old(inFlight) && log == old(log) && now == old(now)
    {
      hide Chronicle, Made, ShaAt, WithSha;
      if ShaAt(op, now, inFlight.value.place) == Some(inFlight.value.before) {
        now := WithSha(op, now, inFlight.value.place, inFlight.value.after);
        Note(Own(inFlight.value));
        inFlight := None;
      }
    }

    /** A step that raises, or an interrupt. */
    method Fails() returns (raised: bool)
      ensures Still() ==> !raised
    {
      raised := *;
      if Still() {
        raised := false;
      }
    }

    // ---- Reads ---------------------------------------------------------------------------------------

    method ReadLocal(ref: Ref) returns (sha: Option<Sha>)
      requires Told()
      modifies this
      ensures Unchecked()
      ensures sha.Some? ==> sha == ShaOf(now.local, ref)
      ensures Still() ==> sha == ShaOf(now.local, ref)
    {
      Interfere();
      var raised := Fails();
      sha := if raised then None else ShaOf(now.local, ref);
    }

    method ReadHead() returns (sha: Option<Sha>)
      requires Told()
      modifies this
      ensures Unchecked()
      ensures sha.Some? ==> sha == HeadSha(now)
      ensures Still() ==> sha == HeadSha(now)
    {
      Interfere();
      var raised := Fails();
      sha := if raised then None else HeadSha(now);
    }

    method ReadLocalMap() returns (refs: Option<RefMap>)
      requires Told()
      modifies this
      ensures Unchecked()
      ensures refs.Some? ==> Whole(now.local) && refs.value == Show(now.local)
      ensures Still() && Whole(now.local) ==> refs.Some?
    {
      Interfere();
      var raised := Fails();
      refs := if raised || !Whole(now.local) then None else Some(Show(now.local));
    }

    method ReadRemote() returns (refs: Option<map<Ref, Sha>>, symref: Ref)
      requires Told()
      modifies this
      ensures Unchecked()
      ensures refs.Some? ==> refs.value == now.remote && symref == now.remoteHead
      ensures Still() ==> refs.Some?
    {
      Interfere();
      var raised := Fails();
      refs, symref := if raised then None else Some(now.remote), now.remoteHead;
    }

    method ReadRemoteSha() returns (sha: Option<Sha>)
      requires Told()
      modifies this
      ensures Unchecked()
      ensures sha.Some? ==> sha == RemoteSha(now)
      ensures Still() ==> sha == RemoteSha(now)
    {
      Interfere();
      var raised := Fails();
      sha := if raised then None else RemoteSha(now);
    }

    /** A validation whose subject (objects, URLs, other worktrees, credentials) is not part of the model. */
    method Inspect(ghost check: Check) returns (passed: bool)
      requires Told()
      modifies this
      ensures Disturbed() && Checked(passed, check)
      ensures Still() ==> passed
    {
      Interfere();
      var raised := Fails();
      passed := !raised;
      if passed {
        Mark(check);
      }
    }

    /** HEAD names main, and the worktree holds exactly what HEAD does. */
    method InspectCheckout(ghost check: Check) returns (passed: bool)
      requires Told()
      modifies this
      ensures Disturbed() && Checked(passed, check)
      ensures passed ==> now.head == Symbolic(MAIN) && HeadSha(now) == Some(now.worktree)
      ensures Still() && now.head == Symbolic(MAIN) && HeadSha(now) == Some(now.worktree) ==> passed
    {
      Interfere();
      var raised := Fails();
      passed := !raised && now.head == Symbolic(MAIN) && HeadSha(now) == Some(now.worktree);
      if passed {
        Mark(check);
      }
    }

    /** How a write ends: whether it raises, and whether it then has taken effect. */
    method Ends(place: Place) returns (raised: bool, applied: bool)
      ensures course.Calm? ==> !raised
      ensures course.SilentUpdate? && place.LocalMain? ==> raised && applied
      ensures course.LatePush? && place.RemoteMain? ==> raised && !applied
    {
      raised := Fails();
      applied := *;
      if course.SilentUpdate? && place.LocalMain? {
        raised, applied := true, true;
      }
      if course.LatePush? && place.RemoteMain? {
        raised, applied := true, false;
      }
    }

    // ---- Writes --------------------------------------------------------------------------------------

    /** At most this write was made: then it came last, found its old SHA there and changed nothing else. */
    twostate predicate WroteAtMost(write: Write)
      reads this`log, this`history
    {
      || log == old(log)
      || (log == old(log) + [write] && |history| >= 2 && history[|history| - 1].cause == Own(write) &&
          Wrote(op, history[|history| - 2].world, history[|history| - 1].world, write))
    }

    /**
     The moment of a compare-and-swap: the ref is at `oldSha` and goes to `newSha`, or nothing changes.  When
     it raises it may have taken effect; whether the ref moved is not known to the caller in the source.
     */
    method Swap(place: Place, newSha: Sha, oldSha: Sha) returns (raised: bool, moved: bool)
      requires Told()
      modifies this`now, this`history, this`log
      ensures Told() && old(history) <= history && WroteAtMost(Write(place, oldSha, newSha))
      ensures moved <==> log != old(log)
      ensures if !moved then now == old(now) && history == old(history)
              else Wrote(op, old(now), now, Write(place, oldSha, newSha))
      ensures !raised ==> moved
      ensures raised && atomicSteps && place != Place.RemoteMain ==> !moved
      ensures old(ShaAt(op, now, place)) == Some(oldSha) ==>
                && (course.Calm? ==> !raised)
                && (course.SilentUpdate? && place.LocalMain? && !atomicSteps ==> raised && moved)
                && (course.LatePush? && place.RemoteMain? ==> raised && !moved)
    {
      hide Chronicle, Made, ShaAt, WithSha;
      var applied: bool;
      raised, applied := Ends(place);
      if ShaAt(op, now, place) != Some(oldSha) {
        return true, false;
      }
      moved := !raised || (applied && (place == Place.RemoteMain || !atomicSteps));
      if moved {
        now := WithSha(op, now, place, newSha);
        Note(Own(Write(place, oldSha, newSha)));
      }
    }

    /** `git update-ref <ref> <new> <old>`, on the direct ref behind `ref`. */
    method UpdateRef(ref: Ref, place: Place, newSha: Sha, oldSha: Sha) returns (raised: bool)
      requires Told() && inFlight.None? && place != Place.RemoteMain && ref == Addressed(op, place)
      modifies this
      ensures Told() && Kept() && inFlight.None? && WroteAtMost(Write(place, oldSha, newSha)) && checks == old(checks)
      ensures !raised ==> log != old(log)
      ensures raised && atomicSteps ==> log == old(log)
      ensures remoteQuiet && attempted ==> RemoteSha(now) == old(RemoteSha(now))
      ensures course.Calm? && ref in old(now).local && old(now).local[ref] == Direct(oldSha) ==>
                !raised && now == old(now).(local := old(now).local[ref := Direct(newSha)])
      ensures course.SilentUpdate? && place.LocalMain? && !atomicSteps &&
              ref in old(now).local && old(now).local[ref] == Direct(oldSha) ==>
                raised && log != old(log) && now == old(now).(local := old(now).local[ref := Direct(newSha)])
    {
      hide Chronicle, Made, Told, Addressed;
      if Still() && ref in now.local && now.local[ref].Direct? {
        DirectIsThere(op, now, place);
      }
      Interfere();
      var moved: bool;
      raised, moved := Swap(place, newSha, oldSha);
    }

    /**
     `git push --force-with-lease=main:<old>`; when it raises, whether it took effect is anyone's guess.  It has
     nothing to do, and succeeds, when remote main is at the new SHA already.
     */
    method Push(oldSha: Sha) returns (raised: bool)
      requires Told() && inFlight.None? && attempted && !found
      modifies this
      ensures Told() && old(history) <= history && WroteAtMost(Write(Place.RemoteMain, oldSha, op.toSha))
      ensures mutations == old(mutations) && attempted && validated == old(validated) && checks == old(checks)
      ensures found ==> !raised && log == old(log)
      ensures !raised ==> inFlight.None? && (found || log != old(log))
      ensures inFlight.Some? ==> log == old(log) && inFlight == Some(Write(Place.RemoteMain, oldSha, op.toSha))
      ensures remoteQuiet && (found || log != old(log)) ==> RemoteSha(now) == Some(op.toSha)
      ensures course.Calm? && old(RemoteSha(now)) == Some(oldSha) != Some(op.toSha) ==>
                !raised && !found && now == old(now).(remote := old(now).remote[MAIN := op.toSha])
      ensures course.LatePush? && old(RemoteSha(now)) == Some(oldSha) != Some(op.toSha) ==>
                raised && now == old(now) && inFlight.Some?
    {
      hide Chronicle, Made, Told;
      Interfere();
      raised := Fails();
      if !raised && RemoteSha(now) == Some(op.toSha) {
        FindThere();
        return;
      }
      var moved: bool;
      raised, moved := Swap(Place.RemoteMain, op.toSha, oldSha);
      var later: bool := *;
      later := later || course.LatePush?;
      if raised && !moved && later {
        inFlight := Some(Write(Place.RemoteMain, oldSha, op.toSha));
      }
    }

    method FindThere()
      requires Told() && RemoteSha(now) == Some(op.toSha)
      modifies this`found
      ensures Told() && found
    {
      hide Chronicle, Made, RemoteSha;
      assert RemoteSha(history[|history| - 1].world) == Some(op.toSha);
      found := true;
    }

    /** `git read-tree -m -u <sha>`. */
    method AlignWorktree(sha: Sha) returns (raised: bool)
      requires Told() && inFlight.None?
      modifies this
      ensures Told() && Kept() && inFlight.None? && log == old(log) && checks == old(checks)
      ensures remoteQuiet && attempted ==> RemoteSha(now) == old(RemoteSha(now))
      ensures !raised ==> now.worktree == sha
      ensures course.Calm? ==> !raised && now == old(now).(worktree := sha)
    {
      hide Chronicle, Made;
      Interfere();
      raised := Fails();
      var partial: Sha := *;
      now := now.(worktree := if raised then partial else sha);
      Note(Aligned);
    }

    /** Local main and HEAD both read back as `sha`. */
    method LocalAndHeadAt(sha: Sha, ghost check: Check) returns (both: bool)
      requires Told()
      modifies this
      ensures Disturbed() && Checked(both, check)
      ensures Still() && ShaOf(now.local, MAIN) == Some(sha) && HeadSha(now) == Some(sha) ==> both
    {
      hide Told, ShaOf, HeadSha;
      var l := ReadLocal(MAIN);
      if l != Some(sha) {
        return false;
      }
      var h := ReadHead();
      both := h == Some(sha);
      if both {
        Mark(check);
      }
    }

    /** A validation followed by `_require_local_refs_unchanged`. */
    method InspectAndCompare(refs: RefMap, ghost inspected: Check, ghost compared: Check) returns (same: bool)
      requires Told()
      modifies this
      ensures Disturbed() && old(checks) <= checks
      ensures same ==> checks == old(checks) + [inspected, compared]
      ensures Still() && Whole(now.local) && Show(now.local) == refs ==> same
    {
      hide Told, Whole, Show;
      ChecksJoin(checks, inspected, compared, compared, compared);
      var passed := Inspect(inspected);
      if !passed {
        return false;
      }
      var again := ReadLocalMap();
      same := again == Some(refs);
      if same {
        Mark(compared);
      }
    }

    /** HEAD and local main could be read. */
    method HeadAndLocalRead(ghost check: Check) returns (read: bool)
      requires Told()
      modifies this
      ensures Disturbed() && Checked(read, check)
      ensures Still() && HeadSha(now).Some? && ShaOf(now.local, MAIN).Some? ==> read
    {
      hide Told, ShaOf, HeadSha;
      var h := ReadHead();
      if h.None? {
        return false;
      }
      var l := ReadLocal(MAIN);
      read := l.Some?;
      if read {
        Mark(check);
      }
    }

    // ---- The protocol's parts ----------------------------------------------------------------------------

    /** Before anything is in doubt: the writes made are exactly the ledger's, in the intended order. */
    ghost predicate Exact()
      reads this`inFlight, this`mutations, this`log, this`found
    {
      && inFlight.None? && mutations <= Intended(op) && log == OwnWrites(op, mutations, found)
      && (found ==> RemoteMainCas in mutations)
    }

    /** After a step raised: the write under way may have happened, or may still happen, unrecorded. */
    ghost predicate Accounted()
      reads this`inFlight, this`mutations, this`log, this`attempted, this`found
    {
      && (found ==> RemoteMainCas in mutations)
      && mutations <= Intended(op) && OwnWrites(op, mutations, found) <= log <= OwnWrites(op, Intended(op), found)
      && |log| <= |OwnWrites(op, mutations, found)| + 1
      && (inFlight.Some? ==>
            && log == OwnWrites(op, mutations, found) && inFlight == Some(Write(RemoteMain, op.fromSha, op.toSha))
            && attempted && mutations + [RemoteMainCas] <= Intended(op))
    }

    /** A step of this run is going to slip. */
    ghost predicate Slips() {
      || (course.SilentUpdate? && op.verb == Forward && !atomicSteps)
      || (course.LatePush? && op.verb == Restore)
    }

    /** What a slip makes of the world `w` and of a run that had written nothing. */
    ghost predicate Slipped(w: World)
      reads this`now, this`mutations, this`attempted, this`inFlight, this`log
    {
      && mutations == [] && attempted == course.LatePush?
      && if attempted
         then now == w && log == [] && inFlight == Some(Write(Place.RemoteMain, op.fromSha, op.toSha))
         else now == w.(local := w.local[MAIN := Direct(op.toSha)]) && inFlight.None? &&
              log == [Write(LocalMain, op.fromSha, op.toSha)]
    }

    /** The validations up to `_require_checked_out_clean_main`. */
    method RequireCheckedOutCleanMain() returns (passed: bool)
      requires Told()
      modifies this
      ensures Told() && old(history) <= history
      ensures attempted == old(attempted) && mutations == old(mutations) && found == old(found)
      ensures old(inFlight).None? ==> inFlight.None? && log == old(log)
      ensures passed ==> validated && op.fromSha != op.toSha
      ensures old(checks) <= checks
      ensures passed ==> checks == old(checks) + [OperationValid, MainCheckedOut, MainAtFrom, RemoteAtFrom]
      ensures Still() ==> now == old(now) && (Ready(op, now) ==> passed)
    {
      hide Told, ShaOf, HeadSha, RemoteSha, Show, Whole;
      passed := false;
      if Still() && Ready(op, now) {
        ReadyShows(op, now);
      }
      ChecksJoin(checks, OperationValid, MainCheckedOut, MainAtFrom, RemoteAtFrom);
      var valid := Inspect(OperationValid);
      if !valid || op.fromSha == op.toSha {
        return;
      }
      validated := true;
      var clean := InspectCheckout(MainCheckedOut);
      if !clean {
        return;
      }
      var atFrom := LocalAndHeadAt(op.fromSha, MainAtFrom);
      if !atFrom {
        return;
      }
      var remoteSha := ReadRemoteSha();
      passed := remoteSha == Some(op.fromSha);
      if passed {
        Mark(RemoteAtFrom);
      }
    }

    /** What a run establishes before its first mutation: the two baselines, with the moments they were read. */
    method Prepare() returns (baseline: Option<Baseline>, ghost localAt: nat, ghost remoteAt: nat)
      requires Fresh() && Told()
      modifies this
      ensures !attempted && inFlight.None? && !found && mutations == [] && log == []
      ensures Told() && old(history) <= history
      ensures baseline.Some? ==> checks == BASELINE
      ensures baseline.Some? ==>
                validated && op.fromSha != op.toSha && Seen(op, history, baseline.value, localAt, remoteAt)
      ensures Still() && old(Ready(op, now)) ==>
                baseline.Some? && now == old(now) && history[localAt].world.local == now.local &&
                baseline.value.remote == now.remote
    {
      hide Told, ShaOf, HeadSha, RemoteSha, Show, Whole, Tracking, BASELINE;
      BaselineJoins(checks);
      baseline, localAt, remoteAt := None, 0, 0;
      if Still() && Ready(op, now) {
        ReadyShows(op, now);
      }
      var clean := RequireCheckedOutCleanMain();
      if !clean {
        return;
      }
      var before;
      before, localAt := ReadLocalBaseline();
      if before.None? {
        return;
      }
      var refs, symref := ReadRemote();
      if refs.None? || symref != MAIN || MAIN !in refs.value || refs.value[MAIN] != op.fromSha {
        return;
      }
      LastIsNow();
      remoteAt := |history| - 1;
      Mark(RemoteBaseline);
      var probe := Inspect(PushProbed);
      if !probe {
        return;
      }
      baseline := Some(Baseline(before.value, refs.value, symref));
    }

    /** The local half of it, with the moment the map was read. */
    method ReadLocalBaseline() returns (before: Option<RefMap>, ghost localAt: nat)
      requires Told()
      modifies this
      ensures Disturbed() && old(checks) <= checks
      ensures before.Some? ==>
                && checks == old(checks) + [TrackingAtFrom, TransitionValid, RefsAsBefore]
                && localAt < |history| && Whole(history[localAt].world.local)
                && history[localAt].world.local != map[] && before.value == Show(history[localAt].world.local)
                && Tracking(op) in before.value && before.value[Tracking(op)] == RefState(op.fromSha, None)
      ensures Still() && Whole(now.local) && Tracking(op) in Show(now.local) &&
              Show(now.local)[Tracking(op)] == RefState(op.fromSha, None) ==>
                before.Some? && history[localAt].world.local == now.local
    {
      hide Told, Show, Whole, Tracking;
      localAt := 0;
      before := ReadLocalMap();
      if before.None? || Tracking(op) !in before.value ||
         before.value[Tracking(op)] != RefState(op.fromSha, None) {
        return None, 0;
      }
      LastIsNow();
      localAt := |history| - 1;
      ShownIsNotEmpty(now.local, Tracking(op));
      Mark(TrackingAtFrom);
      var same := InspectAndCompare(before.value, TransitionValid, RefsAsBefore);
      if !same {
        return None, 0;
      }
    }

    lemma LastIsNow()
      requires Told()
      ensures history != [] && history[|history| - 1].world == now
    {
    }

    /** The step `m` was begun on an exact ledger and may have written. */
    lemma Begun(m: Mutation, before: seq<Write>)
      requires mutations + [m] <= Intended(op) && before == OwnWrites(op, mutations, found)
      requires log == before || log == before + OwnWrites(op, [m], found)
      requires found ==> RemoteMainCas in mutations
      requires inFlight.None? || (attempted && log == before && m == RemoteMainCas &&
                                  inFlight == Some(Write(RemoteMain, op.fromSha, op.toSha)))
      ensures Accounted()
      ensures log == before && inFlight.None? ==> Exact()
    {
      OneMore(op, mutations, m, found);
      WritesGrow(op, mutations, Intended(op), found);
      WritesGrow(op, mutations + [m], Intended(op), found);
    }

    lemma Stands()
      requires Exact()
      ensures inFlight.None? && Accounted() && log == OwnWrites(op, mutations, found)
      ensures mutations <= Intended(op) && (found ==> RemoteMainCas in mutations)
    {
      WritesGrow(op, mutations, Intended(op), found);
    }

    /** The step `m` is over, and its entry goes into the ledger. */
    method Record(m: Mutation)
      requires inFlight.None? && mutations + [m] <= Intended(op)
      requires log == OwnWrites(op, mutations, found) + OwnWrites(op, [m], found)
      requires found ==> RemoteMainCas in mutations + [m]
      modifies this`mutations
      ensures Exact() && Accounted() && mutations == old(mutations) + [m] && log == OwnWrites(op, mutations, found)
    {
      OneMore(op, mutations, m, found);
      mutations := mutations + [m];
      Stands();
    }

    /** The first half of `_cas_local_main_and_align`: the compare-and-swap of local main. */
    method CasLocalMain() returns (raised: bool)
      requires Told() && Exact() && mutations + [LocalMainCas] <= Intended(op)
      modifies this
      ensures attempted == old(attempted) && validated == old(validated) && inFlight.None?
      ensures Told() && old(history) <= history
      ensures Accounted() && (atomicSteps ==> Exact())
      ensures mutations == old(mutations) || mutations == old(mutations) + [LocalMainCas]
      ensures old(checks) <= checks
      ensures !raised ==> checks == old(checks) + [MainNotShared, MainStillAtFrom, MainMoved]
      ensures log != old(log) ==> old(checks) + [MainNotShared, MainStillAtFrom] <= checks
      ensures !raised ==> Exact() && mutations == old(mutations) + [LocalMainCas]
      ensures remoteQuiet && attempted ==> RemoteSha(now) == old(RemoteSha(now))
      ensures course.Calm? && MAIN in old(now).local && old(now).local[MAIN] == Direct(op.fromSha) &&
              old(now).head == Symbolic(MAIN) ==>
                !raised && now == old(now).(local := old(now).local[MAIN := Direct(op.toSha)])
      ensures course.SilentUpdate? && !atomicSteps &&
              old(Ready(op, now) && log == [] && mutations == [] && !attempted) ==>
                raised && Slipped(old(now))
    {
      hide Told, ShaOf, RemoteSha, MAIN, Wrote, Exact, Accounted, OwnWrites, Intended;
      Stands();
      MainMoves(now, op.toSha);
      WrittenBy(LocalMainCas);
      Begun(LocalMainCas, log);
      ChecksJoin(checks, MainNotShared, MainStillAtFrom, MainMoved, MainMoved);
      var alone := Inspect(MainNotShared);
      if !alone {
        return true;
      }
      var atFrom := LocalAndHeadAt(op.fromSha, MainStillAtFrom);
      if !atFrom {
        return true;
      }
      raised := UpdateRef(MAIN, LocalMain, op.toSha, op.fromSha);
      if raised {
        Begun(LocalMainCas, OwnWrites(op, mutations, found));
        return;
      }
      Record(LocalMainCas);
      var moved := LocalAndHeadAt(op.toSha, MainMoved);
      raised := !moved;
    }

    /** Local main and HEAD as read from a store where main is direct. */
    lemma MainMoves(w: World, sha: Sha)
      requires w == now
      ensures MAIN in w.local && w.local[MAIN].Direct? && w.head == Symbolic(MAIN) ==>
                ShaOf(w.local, MAIN) == Some(w.local[MAIN].sha) && HeadSha(w) == Some(w.local[MAIN].sha)
      ensures w.head == Symbolic(MAIN) ==>
                var w2 := w.(local := w.local[MAIN := Direct(sha)]);
                ShaOf(w2.local, MAIN) == Some(sha) && HeadSha(w2) == Some(sha)
    {
      DirectMain(w.local);
      DirectMain(w.local[MAIN := Direct(sha)]);
    }

    /** `_cas_local_main_and_align`. */
    method CasLocalMainAndAlign() returns (raised: bool)
      requires Told() && Exact() && mutations + [LocalMainCas, WorktreeAlignment] <= Intended(op)
      modifies this
      ensures attempted == old(attempted) && validated == old(validated) && inFlight.None?
      ensures Told() && old(history) <= history
      ensures Accounted() && (atomicSteps ==> Exact())
      ensures old(mutations) <= mutations && old(checks) <= checks
      ensures !raised ==> checks == old(checks) + [MainNotShared, MainStillAtFrom, MainMoved, MainAligned]
      ensures !raised ==> Exact() && mutations == old(mutations) + [LocalMainCas, WorktreeAlignment]
      ensures remoteQuiet && attempted ==> RemoteSha(now) == old(RemoteSha(now))
      ensures course.Calm? && MAIN in old(now).local && old(now).local[MAIN] == Direct(op.fromSha) &&
              old(now).head == Symbolic(MAIN) ==>
                !raised && now == old(now).(local := old(now).local[MAIN := Direct(op.toSha)], worktree := op.toSha)
      ensures course.SilentUpdate? && !atomicSteps &&
              old(Ready(op, now) && log == [] && mutations == [] && !attempted) ==>
                raised && Slipped(old(now))
    {
      hide Told, ShaOf, RemoteSha, MAIN, Exact, Accounted, OwnWrites, Intended;
      ghost var ledger := mutations;
      ChecksJoin(checks, MainNotShared, MainStillAtFrom, MainMoved, MainAligned);
      assert ledger + [LocalMainCas, WorktreeAlignment] == ledger + [LocalMainCas] + [WorktreeAlignment];
      raised := CasLocalMain();
      if raised {
        return;
      }
      Stands();
      WrittenBy(WorktreeAlignment);
      raised := AlignWorktree(op.toSha);
      if raised {
        Begun(WorktreeAlignment, log);
        return;
      }
      Record(WorktreeAlignment);
      MainMoves(now, op.toSha);
      var still := LocalAndHeadAt(op.toSha, MainAligned);
      raised := !still;
    }

    /** `_cas_remote_tracking_main`. */
    method CasRemoteTrackingMain() returns (raised: bool)
      requires Told() && Exact() && mutations + [TrackingMainCas] == Intended(op)
      modifies this
      ensures attempted == old(attempted) && validated == old(validated) && inFlight.None?
      ensures Told() && old(history) <= history
      ensures Accounted() && (atomicSteps ==> Exact()) && old(mutations) <= mutations && old(checks) <= checks
      ensures !raised ==> Exact() && mutations == Intended(op) && checks == old(checks) + [TrackingMoved]
      ensures remoteQuiet && attempted ==> RemoteSha(now) == old(RemoteSha(now))
      ensures course.Calm? && Tracking(op) in old(now).local && old(now).local[Tracking(op)] == Direct(op.fromSha) ==>
                !raised && now == old(now).(local := old(now).local[Tracking(op) := Direct(op.toSha)])
    {
      hide Told, RemoteSha, Tracking, Wrote, Exact, Accounted, OwnWrites, Intended;
      Stands();
      WrittenBy(TrackingMainCas);
      raised := UpdateRef(Tracking(op), TrackingMain, op.toSha, op.fromSha);
      if raised {
        Begun(TrackingMainCas, OwnWrites(op, mutations, found));
        return;
      }
      Record(TrackingMainCas);
      DirectSha(now.local, Tracking(op));
      var seen := ReadLocal(Tracking(op));
      raised := seen != Some(op.toSha);
      if !raised {
        Mark(TrackingMoved);
      }
    }

    lemma WrittenBy(m: Mutation)
      ensures m.LocalMainCas? ==> OwnWrites(op, [m], found) == [Write(LocalMain, op.fromSha, op.toSha)]
      ensures m.TrackingMainCas? ==> OwnWrites(op, [m], found) == [Write(TrackingMain, op.fromSha, op.toSha)]
      ensures m.RemoteMainCas? ==>
                OwnWrites(op, [m], found) == if found then [] else [Write(RemoteMain, op.fromSha, op.toSha)]
      ensures m.WorktreeAlignment? ==> OwnWrites(op, [m], found) == []
    {
      assert [m][..0] == [];
    }

    /**
     `_require_final_state`, with the moments it was decided on.  Every reading is after the call began, and the
     local maps are read after the last answer of the remote.
     */
    method RequireFinalState(baseline: Baseline, ghost localAt: nat, ghost remoteAt: nat)
      returns (proved: bool, ghost remoteThen: nat, ghost localThen: nat)
      requires Told() && Seen(op, history, baseline, localAt, remoteAt)
      modifies this
      ensures Disturbed() && old(checks) <= checks && (proved ==> checks == old(checks) + FINAL)
      ensures proved ==> |old(history)| - 1 <= remoteThen
                         && Proved(op, history, localAt, remoteAt, remoteThen, localThen)
      ensures course.Calm? && now.remoteHead == baseline.remoteHead &&
              now.remote == baseline.remote[MAIN := ExpectedSha(op)]
              && now.head == Symbolic(MAIN) && now.worktree == ExpectedSha(op) &&
              ShaOf(now.local, MAIN) == Some(ExpectedSha(op)) && Whole(now.local) &&
              now.local == Expected(op, history[localAt].world.local) &&
              (op.dryRun || AtFrom(op, history[localAt].world.local))
              ==> proved
    {
      hide Told, Show, ShaOf, FinalMap, Expected, AtFrom, Whole, MAIN, FINAL;
      FinalJoins(checks);
      localThen := 0;
      proved, remoteThen := RequireRemoteState(baseline);
      if !proved {
        return;
      }
      proved, localThen := RequireLocalState(baseline, localAt);
    }

    /** The local half of it, read after the last answer of the remote. */
    method RequireLocalState(baseline: Baseline, ghost localAt: nat) returns (proved: bool, ghost localThen: nat)
      requires Told() && localAt < |history| && Whole(history[localAt].world.local)
      requires history[localAt].world.local != map[] && baseline.local == Show(history[localAt].world.local)
      modifies this
      ensures Disturbed() && old(checks) <= checks
      ensures proved ==> checks == old(checks) + [CheckoutFinal, LocalFinal, AllAtExpected]
      ensures proved ==>
                && |old(history)| - 1 <= localThen < |history|
                && (op.dryRun || AtFrom(op, history[localAt].world.local))
                && history[localThen].world.local == Expected(op, history[localAt].world.local)
      ensures Still() && now.head == Symbolic(MAIN) && now.worktree == ExpectedSha(op) &&
              ShaOf(now.local, MAIN) == Some(ExpectedSha(op)) && Whole(now.local) &&
              now.local == Expected(op, history[localAt].world.local) &&
              (op.dryRun || AtFrom(op, history[localAt].world.local))
              ==> proved
    {
      hide Told, Show, ShaOf, FinalMap, Expected, AtFrom, Whole, MAIN;
      ChecksJoin(checks, CheckoutFinal, LocalFinal, AllAtExpected, AllAtExpected);
      localThen := 0;
      var clean := InspectCheckout(CheckoutFinal);
      if !clean {
        return false, 0;
      }
      var after := ReadLocalMap();
      FinalMapIsExact(op, history[localAt].world.local, now.local);
      if after.None? || !FinalMap(op, baseline.local, after.value) {
        return false, 0;
      }
      LastIsNow();
      localThen := |history| - 1;
      Mark(LocalFinal);
      proved := LocalAndHeadAt(ExpectedSha(op), AllAtExpected);
    }

    /** The readback against the remote baseline, with the moment the remote answered. */
    method RequireRemoteState(baseline: Baseline) returns (proved: bool, ghost remoteThen: nat)
      requires Told() && MAIN in baseline.remote
      modifies this
      ensures Disturbed() && old(checks) <= checks
      ensures proved ==> checks == old(checks) + [UrlUnchanged, MainReadable, RemoteFinal, WorktreesFinal]
      ensures proved ==> |old(history)| - 1 <= remoteThen < |history|
                         && history[remoteThen].world.remote == baseline.remote[MAIN := ExpectedSha(op)]
      ensures course.Calm? && now.remoteHead == baseline.remoteHead &&
              now.remote == baseline.remote[MAIN := ExpectedSha(op)]
              && now.head == Symbolic(MAIN) && ShaOf(now.local, MAIN).Some?
              ==> proved
    {
      hide Told, ShaOf, RemoteDelta;
      remoteThen := 0;
      ChecksJoin(checks, UrlUnchanged, MainReadable, RemoteFinal, WorktreesFinal);
      var url := Inspect(UrlUnchanged);
      if !url {
        return false, 0;
      }
      var read := HeadAndLocalRead(MainReadable);
      if !read {
        return false, 0;
      }
      var seen, symref := ReadRemote();
      RemoteDeltaIsExact(baseline.remote, now.remote, ExpectedSha(op));
      if seen.None? || symref != baseline.remoteHead || !RemoteDelta(baseline.remote, seen.value) ||
         MAIN !in seen.value || seen.value[MAIN] != ExpectedSha(op) {
        return false, 0;
      }
      LastIsNow();
      remoteThen := |history| - 1;
      Mark(RemoteFinal);
      proved := Inspect(WorktreesFinal);
    }

    /** What later interference, or a push that lands after all, does to the account. */
    twostate lemma StillAccounted()
      requires old(Accounted()) && Disturbed()
      ensures Accounted()
    {
      hide Told, RemoteSha, OwnWrites, Intended;
      if log != old(log) {
        NotYetPushed();
        OneMore(op, mutations, RemoteMainCas, found);
        WrittenBy(RemoteMainCas);
        WritesGrow(op, mutations + [RemoteMainCas], Intended(op), found);
      }
    }

    /** A write that the ledger lacks, when local steps are atomic, is the push, and remote main shows it. */
    ghost predicate OnlyThePushIsSilent()
      reads this`now, this`mutations, this`log, this`attempted, this`found
    {
      && (atomicSteps && !attempted ==> log == OwnWrites(op, mutations, found))
      && (atomicSteps && remoteQuiet && log != OwnWrites(op, mutations, found) ==> RemoteSha(now) == Some(op.toSha))
      && (attempted && RemoteMainCas !in mutations ==> mutations + [RemoteMainCas] <= Intended(op))
    }

    /** The push with its ledger entry. */
    method PushMain() returns (raised: bool)
      requires Told() && Exact() && mutations + [RemoteMainCas] <= Intended(op)
      modifies this
      ensures Told() && old(history) <= history && validated == old(validated) && attempted && checks == old(checks)
      ensures Accounted() && (raised ==> mutations == old(mutations))
      ensures !raised ==> Exact() && mutations == old(mutations) + [RemoteMainCas]
      ensures remoteQuiet && (!raised || log != OwnWrites(op, mutations, found)) ==> RemoteSha(now) == Some(op.toSha)
      ensures course.Calm? && old(RemoteSha(now)) == Some(op.fromSha) && op.fromSha != op.toSha ==>
                !raised && now == old(now).(remote := old(now).remote[MAIN := op.toSha])
      ensures course.LatePush? && old(Ready(op, now) && log == [] && mutations == []) ==> raised && Slipped(old(now))
    {
      hide Told, Wrote, RemoteSha, Exact, Accounted, OwnWrites, Intended;
      Stands();
      attempted := true;
      NotYetPushed();
      WrittenBy(RemoteMainCas);
      raised := Push(op.fromSha);
      if raised {
        Begun(RemoteMainCas, OwnWrites(op, mutations, found));
        return;
      }
      WrittenBy(RemoteMainCas);
      Record(RemoteMainCas);
    }

    lemma NotYetPushed()
      requires mutations + [RemoteMainCas] <= Intended(op)
      ensures RemoteMainCas !in mutations
      ensures OwnWrites(op, mutations, true) == OwnWrites(op, mutations, false)
    {
      var n := |mutations|;
      assert (mutations + [RemoteMainCas])[n] == RemoteMainCas == Intended(op)[n];
      assert mutations == (mutations + [RemoteMainCas])[..n] == Intended(op)[..n];
      assert RemoteMainCas !in Intended(op)[..n];
      NotPushed(op, mutations);
    }

    /** The forward order: local main first, then the push. */
    method MutateForward() returns (raised: bool)
      requires Told() && Exact() && mutations == [] && !attempted && op.verb == Forward
      modifies this
      ensures Told() && old(history) <= history
      ensures Accounted() && OnlyThePushIsSilent() && validated == old(validated)
      ensures !raised ==> Exact() && mutations == Intended(op)[..3]
      ensures old(checks) <= checks
      ensures !raised ==> checks == old(checks) + [MainNotShared, MainStillAtFrom, MainMoved, MainAligned]
      ensures course.Calm? && old(Ready(op, now)) ==>
                !raised && now == old(now).(local := old(now).local[MAIN := Direct(op.toSha)], worktree := op.toSha,
                                            remote := old(now).remote[MAIN := op.toSha])
      ensures Slips() && old(Ready(op, now) && log == []) ==> raised && Slipped(old(now))
    {
      hide Told, Whole, ShaOf;
      raised := CasLocalMainAndAlign();
      if raised {
        return;
      }
      raised := PushMain();
    }

    /** The compensation order: the remote gives up the candidate before the local ref does. */
    method MutateRestore() returns (raised: bool)
      requires Told() && Exact() && mutations == [] && !attempted && op.verb == Restore
      modifies this
      ensures Told() && old(history) <= history
      ensures Accounted() && OnlyThePushIsSilent() && validated == old(validated)
      ensures !raised ==> Exact() && mutations == Intended(op)[..3]
      ensures old(checks) <= checks
      ensures !raised ==> checks == old(checks) + [MainNotShared, MainStillAtFrom, MainMoved, MainAligned]
      ensures course.Calm? && old(Ready(op, now)) ==>
                !raised && now == old(now).(local := old(now).local[MAIN := Direct(op.toSha)], worktree := op.toSha,
                                            remote := old(now).remote[MAIN := op.toSha])
      ensures Slips() && old(Ready(op, now) && log == []) ==> raised && Slipped(old(now))
    {
      hide Told, Whole, ShaOf;
      raised := PushMain();
      if raised {
        return;
      }
      raised := CasLocalMainAndAlign();
    }

    method Mutate(baseline: Baseline) returns (raised: bool)
      requires Told() && !op.dryRun && Exact() && mutations == [] && !attempted
      modifies this
      ensures Told() && old(history) <= history
      ensures Accounted() && OnlyThePushIsSilent() && validated == old(validated)
      ensures !raised ==> Exact() && mutations == Intended(op)
      ensures old(checks) <= checks && (!raised ==> checks == old(checks) + MUTATION)
      ensures course.Calm? && old(Ready(op, now)) && Show(old(now).local) == baseline.local ==>
                !raised &&
                now == old(now).(local := old(now).local[MAIN := Direct(op.toSha)][Tracking(op) := Direct(op.toSha)],
                                 worktree := op.toSha, remote := old(now).remote[MAIN := op.toSha])
      ensures Slips() && old(Ready(op, now) && log == []) && Show(old(now).local) == baseline.local ==>
                raised && Slipped(old(now))
    {
      hide Told, Show, Whole, MUTATION;
      MutationJoins(checks);
      TrackingIsNotMain(op);
      WritesGrow(op, [], Intended(op), found);
      var same := InspectAndCompare(baseline.local, NoOtherWorktree, RefsStillAsBefore);
      if !same {
        return true;
      }
      if op.verb == Forward {
        raised := MutateForward();
      } else {
        raised := MutateRestore();
      }
      if raised {
        return;
      }
      assert mutations + [TrackingMainCas] == Intended(op);
      raised := CasRemoteTrackingMain();
    }

    /** The body of the source's `try`: it passes, or something raised. */
    method Attempt() returns (passed: bool, ghost localAt: nat, ghost remoteAt: nat, ghost remoteThen: nat,
                              ghost localThen: nat)
      requires Fresh() && Told()
      modifies this
      ensures Told() && old(history) <= history
      ensures Accounted() && OnlyThePushIsSilent()
      ensures op.dryRun ==> log == [] && mutations == [] && !attempted && inFlight.None?
      ensures log != [] || attempted ==> BASELINE <= checks
      ensures passed ==> checks == AllChecks(op)
      ensures passed ==>
                && validated && Proved(op, history, localAt, remoteAt, remoteThen, localThen)
                && (op.dryRun || (Exact() && mutations == Intended(op)))
      ensures course.Calm? && old(Ready(op, now)) ==>
                passed && now == old(now).(local := Expected(op, old(now).local), worktree := ExpectedSha(op),
                                           remote := old(now).remote[MAIN := ExpectedSha(op)])
      ensures Slips() && !op.dryRun && old(Ready(op, now)) ==> !passed && validated && Slipped(old(now))
    {
      hide Told, Show, ShaOf, Whole, BASELINE, MUTATION, FINAL;
      passed, remoteThen, localThen := false, 0, 0;
      WritesGrow(op, [], Intended(op), found);
      var prepared: Option<Baseline>;
      prepared, localAt, remoteAt := Prepare();
      if prepared.None? {
        return;
      }
      if Still() && old(Ready(op, now)) {
        CalmStore(op, now.local);
        ReadyShows(op, now);
      }
      if !op.dryRun {
        var raised := Mutate(prepared.value);
        if raised {
          return;
        }
      }
      passed, remoteThen, localThen := RequireFinalState(prepared.value, localAt, remoteAt);
    }

    /** `_best_effort_readback`; the remote is read last. */
    method BestEffortReadback() returns (readback: Readback)
      requires Told()
      modifies this
      ensures Unchecked()
      ensures readback.remote.Some? ==> readback.remote == RemoteSha(now)
      ensures Still() ==> readback == Readback(HeadSha(now), ShaOf(now.local, MAIN), RemoteSha(now))
    {
      hide Told, ShaOf, HeadSha;
      var h := ReadHead();
      var l := ReadLocal(MAIN);
      var r := ReadRemoteSha();
      readback := Readback(h, l, r);
    }

    /** The ledger may have been completed from the readback by the one entry that was in doubt. */
    ghost predicate AccountedAfter(reconciled: bool)
      reads this`mutations, this`log, this`found
    {
      && mutations <= Intended(op) && log <= OwnWrites(op, Intended(op), found)
      && |log| <= |OwnWrites(op, mutations, found)| + 1
      && if reconciled
         then mutations != [] && mutations[|mutations| - 1] == RemoteMainCas &&
              OwnWrites(op, mutations[..|mutations| - 1], found) <= log
         else OwnWrites(op, mutations, found) <= log
    }

    /** The failure handler. */
    method Handle() returns (receipt: Receipt)
      requires Told() && Accounted() && OnlyThePushIsSilent()
      modifies this
      ensures Told() && old(history) <= history && AccountedAfter(receipt.reconciled) && checks == old(checks)
      ensures receipt.result == if receipt.outcome == LandedVerificationIncomplete then Warning else Error
      ensures attempted == old(attempted) && (log == old(log) || attempted)
      ensures receipt.outcome != Undetermined ==>
                && Judged(op, mutations, receipt.readback, attempted, receipt.outcome)
                && (receipt.reconciled <==>
                    attempted && RemoteMainCas !in old(mutations) && receipt.readback.remote == Some(op.toSha))
      ensures mutations == old(mutations) + if receipt.reconciled then [RemoteMainCas] else []
      ensures Still() ==> receipt.outcome != Undetermined
      ensures old(log == [] && inFlight.None?) && op.dryRun ==>
                log == [] && receipt.outcome in {NotAttempted, Undetermined}
      ensures receipt.outcome == NotLanded && atomicSteps && remoteQuiet ==> log == []
      ensures receipt.outcome == TargetAlreadyPresent && atomicSteps ==> !attempted && log == []
      ensures receipt.reconciled ==> receipt.readback.remote == Some(op.toSha)
      ensures !old(validated) ==> receipt.readback == Readback(None, None, None)
      ensures Still() ==> now == old(now) && log == old(log) && inFlight == old(inFlight)
      ensures Still() && old(validated && RemoteSha(now) != Some(op.toSha)) ==>
                && mutations == old(mutations) && attempted == old(attempted)
                && receipt.readback == Readback(HeadSha(now), ShaOf(now.local, MAIN), RemoteSha(now))
                && receipt.outcome == TransitionOutcome(op, mutations, receipt.readback, true, attempted)
    {
      hide Told, RemoteSha, TransitionOutcome, Intended;
      var readback := Readback(None, None, None);
      if validated {
        readback := BestEffortReadback();
        StillAccounted();
      }
      NothingStandsFor();
      receipt := Judge(readback);
    }

    lemma NothingStandsFor()
      ensures OwnWrites(op, [], found) == []
    {
    }

    /** What the handler makes of the readback; it may be interrupted itself. */
    method Judge(readback: Readback) returns (receipt: Receipt)
      requires Accounted()
      requires attempted && RemoteMainCas !in mutations ==> mutations + [RemoteMainCas] <= Intended(op)
      modifies this`mutations
      ensures AccountedAfter(receipt.reconciled) && receipt.readback == readback
      ensures receipt.result == if receipt.outcome == LandedVerificationIncomplete then Warning else Error
      ensures receipt.outcome != Undetermined ==>
                && Judged(op, mutations, readback, attempted, receipt.outcome)
                && (receipt.reconciled <==>
                    attempted && RemoteMainCas !in old(mutations) && readback.remote == Some(op.toSha))
      ensures mutations == old(mutations) + if receipt.reconciled then [RemoteMainCas] else []
      ensures receipt.reconciled ==> readback.remote == Some(op.toSha) && attempted && RemoteMainCas !in old(mutations)
      ensures Still() ==> receipt.outcome == TransitionOutcome(op, mutations, readback, true, attempted) != Undetermined
    {
      hide TransitionOutcome, OwnWrites;
      var interrupted := Fails();
      if interrupted {
        return Receipt(Error, Undetermined, readback, false);
      }
      var reconciled := attempted && RemoteMainCas !in mutations && readback.remote == Some(op.toSha);
      if reconciled {
        Reconciled();
        mutations := mutations + [RemoteMainCas];
      }
      interrupted := Fails();
      if interrupted {
        return Receipt(Error, Undetermined, readback, reconciled);
      }
      OutcomeIsExact(op, mutations, readback, attempted);
      var outcome := TransitionOutcome(op, mutations, readback, true, attempted);
      var result := if outcome == LandedVerificationIncomplete then Warning else Error;
      return Receipt(result, outcome, readback, reconciled);
    }

    lemma Reconciled()
      requires mutations + [RemoteMainCas] <= Intended(op) && !found
      ensures |OwnWrites(op, mutations + [RemoteMainCas], found)| == |OwnWrites(op, mutations, found)| + 1
    {
      OneMore(op, mutations, RemoteMainCas, found);
      WrittenBy(RemoteMainCas);
    }

    /**
     A whole run.  Whatever happens: the ledger is a prefix of the intended order; wherever this run wrote, the
     ref was at `--from`, went to `--to`, and nothing else changed; and the ledger lags behind or runs ahead of
     the writes by at most the one in doubt.  `Succeeded` is said exactly on the success path, where the states
     the baselines and the final maps were read from differ only in main and its tracking ref.
     */
    method Execute() returns (receipt: Receipt, ghost localAt: nat, ghost remoteAt: nat, ghost remoteThen: nat,
                              ghost localThen: nat)
      requires Fresh() && Told()
      modifies this
      ensures Told() && old(history) <= history && OnlyFromTo(op, history) && AccountedAfter(receipt.reconciled)
      ensures op.dryRun ==> MovedNothing(history) && receipt.outcome in {NotAttempted, Undetermined}
      ensures receipt.result == Success ==> checks == AllChecks(op)
      ensures Made(history) != [] || attempted ==> BASELINE <= checks
      ensures receipt.outcome == Succeeded <==> receipt.result == Success && !op.dryRun
      ensures receipt.result == Success && op.dryRun ==> receipt.outcome == NotAttempted
      ensures receipt.result == Warning <==> receipt.outcome == LandedVerificationIncomplete
      ensures receipt.result != Success && receipt.outcome != Undetermined ==>
                && Judged(op, mutations, receipt.readback, attempted, receipt.outcome)
                && (attempted && receipt.readback.remote == Some(op.toSha) ==> RemoteMainCas in mutations)
      ensures Still() ==> receipt.outcome != Undetermined
      ensures receipt.result == Success ==>
                receipt.readback == AllAt(ExpectedSha(op)) &&
                Proved(op, history, localAt, remoteAt, remoteThen, localThen)
      ensures receipt.outcome == Succeeded ==>
                && OnlyMainMoved(op, history[localAt].world.local, history[localThen].world.local)
                && history[remoteThen].world.remote ==
                   history[remoteAt].world.remote["refs/heads/main" := op.toSha]
      ensures receipt.outcome == Succeeded ==>
                mutations == Intended(op) && Made(history) == OwnWrites(op, Intended(op), found) && inFlight.None?
      ensures found ==> WasThere(op, history)
      ensures receipt.outcome == NotLanded && atomicSteps && remoteQuiet ==> MovedNothing(history)
      ensures receipt.outcome == TargetAlreadyPresent && atomicSteps ==> !attempted && MovedNothing(history)
      ensures receipt.reconciled ==> receipt.readback.remote == Some(op.toSha)
      ensures course.Calm? && old(Ready(op, now)) ==>
                && receipt.result == Success
                && now == old(now).(local := Expected(op, old(now).local), worktree := ExpectedSha(op),
                                    remote := old(now).remote[MAIN := ExpectedSha(op)])
      ensures Slips() && !op.dryRun && old(Ready(op, now)) ==>
                Slipped(old(now)) && receipt.outcome == NotLanded &&
                receipt.readback == Readback(HeadSha(now), ShaOf(now.local, MAIN), RemoteSha(now))
    {
      hide OwnWrites, Proved, Chronicle, Made, OnlyFromTo, MovedNothing, Whole, BothAt, TransitionOutcome, Intended;
      var passed: bool;
      passed, localAt, remoteAt, remoteThen, localThen := Attempt();
      if passed {
        WritesGrow(op, mutations, Intended(op), found);
        WritesAreSafe(op, others, history, found);
        var readback := AllAt(ExpectedSha(op));
        SuccessIsExact(op, mutations, readback);
        ProvedByName(op, history, localAt, remoteAt, remoteThen, localThen);
        var outcome := TransitionOutcome(op, mutations, readback, false, false);
        return Receipt(Success, outcome, readback, false), localAt, remoteAt, remoteThen, localThen;
      }
      receipt := Handle();
      WritesAreSafe(op, others, history, found);
    }
  }

  /**
   Why `not-landed` needs atomic local steps: the `update-ref` of local main takes effect and is interrupted before
   its ledger entry.  Main was moved, the readback shows it, and the receipt says `not-landed`.
   */
  method NotLandedThoughMoved(op: Operation, others: Environment, w: World)
    returns (receipt: Receipt, ghost history: seq<Moment>)
    requires Ready(op, w) && op.verb == Forward && !op.dryRun
    ensures Chronicle(op, others, history) && history[0].world == w && !MovedNothing(history)
    ensures history[|history| - 1].world == w.(local := w.local[MAIN := Direct(op.toSha)])
    ensures Made(history) == [Write(LocalMain, op.fromSha, op.toSha)]
    ensures receipt.outcome == NotLanded
    ensures receipt.readback == Readback(Some(op.toSha), Some(op.toSha), Some(op.fromSha))
  {
    hide Chronicle, Made, Whole, Tracking, BothAt;
    var run := new Repository(op, SilentUpdate, false, true, others, w);
    ghost var localAt, remoteAt, remoteThen, localThen;
    receipt, localAt, remoteAt, remoteThen, localThen := run.Execute();
    history := run.history;
    DirectIsThere(op, run.now, LocalMain);
    MadeNothing(history);
  }

  /**
   Why it needs a quiet remote: the push of a compensation raises, everything reads back as it was, and the receipt
   says `not-landed`.  Then the push lands.
   */
  method NotLandedThenLanded(op: Operation, others: Environment, w: World)
    returns (receipt: Receipt, ghost history: seq<Moment>, ghost over: nat)
    requires Ready(op, w) && op.verb == Restore && !op.dryRun
    ensures Chronicle(op, others, history) && history[0].world == w
    ensures receipt.outcome == NotLanded && receipt.readback == AllAt(op.fromSha)
    ensures 0 < over < |history| && history[over - 1].world == w && MovedNothing(history[..over])
    ensures history[over..] == [Moment(w.(remote := w.remote[MAIN := op.toSha]),
                                       Own(Write(Place.RemoteMain, op.fromSha, op.toSha)))]
  {
    hide Chronicle, Made, Whole, Tracking, BothAt;
    var run := new Repository(op, LatePush, true, false, others, w);
    ghost var localAt, remoteAt, remoteThen, localThen;
    receipt, localAt, remoteAt, remoteThen, localThen := run.Execute();
    WritesAreSafe(op, others, run.history, run.found);
    ReadyShows(op, w);
    over := |run.history|;
    run.Land();
    history := run.history;
  }
}
