/** The refs a run shares with third parties, and the chronicle of who changed them and how. */
module CanonicalRefWorld {
  import opened Text
  import opened CanonicalRefs

  /** Everything outside the run's own bookkeeping. */
  datatype World =
    World(local: Store, head: Target, worktree: Sha, remote: map<Ref, Sha>, remoteHead: Ref)

  function RemoteSha(w: World): Option<Sha> {
    if MAIN in w.remote then Some(w.remote[MAIN]) else None
  }

  function HeadSha(w: World): Option<Sha> {
    match w.head case Direct(sha) => Some(sha) case Symbolic(ref) => ShaOf(w.local, ref)
  }

  /** The ref by which a place is addressed. */
  function Addressed(op: Operation, place: Place): Ref {
    if place == TrackingMain then Tracking(op) else MAIN
  }

  /** What stands at a place; a local ref may be symbolic. */
  function ShaAt(op: Operation, w: World, place: Place): Option<Sha> {
    if place == RemoteMain then RemoteSha(w) else ShaOf(w.local, Addressed(op, place))
  }

  /** The world with another SHA at the place, and nothing else changed. */
  function WithSha(op: Operation, w: World, place: Place, sha: Sha): World
    requires ShaAt(op, w, place).Some?
  {
    if place == RemoteMain then w.(remote := w.remote[MAIN := sha])
    else w.(local := w.local[Final(w.local, Addressed(op, place), MAX_CHAIN).value := Direct(sha)])
  }

  /** The write found its old SHA at the place and left its new one there, and nothing else changed. */
  predicate Wrote(op: Operation, w: World, w2: World, write: Write) {
    ShaAt(op, w, write.place) == Some(write.before) && w2 == WithSha(op, w, write.place, write.after)
  }

  lemma DirectIsThere(op: Operation, w: World, place: Place)
    requires place != RemoteMain && Addressed(op, place) in w.local && w.local[Addressed(op, place)].Direct?
    ensures ShaAt(op, w, place) == Some(w.local[Addressed(op, place)].sha)
    ensures forall sha :: WithSha(op, w, place, sha) ==
                          w.(local := w.local[Addressed(op, place) := Direct(sha)])
  {
  }

  // ---- The chronicle --------------------------------------------------------------------------------------

  /** What third parties make of a state when they get their turn. */
  type Environment = (nat, World) -> World

  /** The same, except that remote main stays as it is. */
  function Hushed(w: World, w2: World): World {
    w2.(remote := if MAIN in w.remote then w2.remote[MAIN := w.remote[MAIN]] else w2.remote - {MAIN})
  }

  /** Who brought a state about: third parties, this run by a ref write, or this run by aligning its worktree. */
  datatype Cause = Others(turn: nat) | Own(write: Write) | Aligned

  datatype Moment = Moment(world: World, cause: Cause)

  predicate Explained(op: Operation, env: Environment, w: World, w2: World, cause: Cause) {
    match cause
    case Others(turn) => w2 == env(turn, w) || w2 == Hushed(w, env(turn, w))
    case Own(write) => Wrote(op, w, w2, write)
    case Aligned => w2 == w.(worktree := w2.worktree)
  }

  /** Each state follows from the one before it by its cause. */
  predicate Chronicle(op: Operation, env: Environment, history: seq<Moment>) {
    && history != [] && history[0].cause.Others?
    && forall k :: 0 < k < |history| ==> Explained(op, env, history[k - 1].world, history[k].world, history[k].cause)
  }

  /** The ref writes of this run, in order. */
  function Made(history: seq<Moment>): seq<Write> {
    if history == [] then []
    else
      Made(history[..|history| - 1]) +
      match history[|history| - 1].cause case Own(write) => [write] case _ => []
  }

  lemma ChronicleGrows(op: Operation, env: Environment, history: seq<Moment>, m: Moment)
    requires Chronicle(op, env, history) && Explained(op, env, history[|history| - 1].world, m.world, m.cause)
    ensures Chronicle(op, env, history + [m])
    ensures Made(history + [m]) == Made(history) + match m.cause case Own(write) => [write] case _ => []
  {
    hide Explained;
    var longer := history + [m];
    assert longer[..|history|] == history;
    forall k | 0 < k < |longer| ensures Explained(op, env, longer[k - 1].world, longer[k].world, longer[k].cause) {
      assert k < |history| ==> longer[k] == history[k] && longer[k - 1] == history[k - 1];
    }
  }

  lemma {:induction false} MadeOfMoments(history: seq<Moment>, k: nat)
    requires k < |history| && history[k].cause.Own?
    ensures history[k].cause.write in Made(history)
    decreases |history|
  {
    if k < |history| - 1 {
      MadeOfMoments(history[..|history| - 1], k);
    }
  }

  /** Wherever this run wrote, it found `--from`, left `--to`, and changed nothing else. */
  predicate OnlyFromTo(op: Operation, history: seq<Moment>) {
    forall k :: 0 < k < |history| && history[k].cause.Own? ==>
      var place := history[k].cause.write.place;
      && ShaAt(op, history[k - 1].world, place) == Some(op.fromSha)
      && history[k].world == WithSha(op, history[k - 1].world, place, op.toSha)
  }

  /** At some moment remote main was where the push was to bring it. */
  predicate WasThere(op: Operation, history: seq<Moment>) {
    exists k :: 0 <= k < |history| && RemoteSha(history[k].world) == Some(op.toSha)
  }

  /** This run moved no ref. */
  predicate MovedNothing(history: seq<Moment>) {
    forall k :: 0 <= k < |history| ==> !history[k].cause.Own?
  }

  lemma {:induction false} OwnWritesAreFromTo(op: Operation, ledger: seq<Mutation>, found: bool, write: Write)
    requires write in OwnWrites(op, ledger, found)
    ensures write.before == op.fromSha && write.after == op.toSha
    decreases |ledger|
  {
    if ledger != [] && write in OwnWrites(op, ledger[..|ledger| - 1], found) {
      OwnWritesAreFromTo(op, ledger[..|ledger| - 1], found, write);
    }
  }

  lemma {:induction false} MadeNothing(history: seq<Moment>)
    ensures MovedNothing(history) ==> Made(history) == []
    decreases |history|
  {
    if history != [] && MovedNothing(history) {
      assert !history[|history| - 1].cause.Own?;
      MadeNothing(history[..|history| - 1]);
    }
  }

  /** Writes that are a beginning of the intended ones overwrote nobody else's value. */
  lemma WritesAreSafe(op: Operation, env: Environment, history: seq<Moment>, found: bool)
    requires Chronicle(op, env, history) && Made(history) <= OwnWrites(op, Intended(op), found)
    ensures OnlyFromTo(op, history)
    ensures Made(history) == [] ==> MovedNothing(history)
  {
    hide ShaAt, WithSha, OwnWrites, Intended, Made;
    forall k | 0 <= k < |history| && history[k].cause.Own?
      ensures k > 0 && history[k].cause.write in Made(history)
      ensures history[k].cause.write.before == op.fromSha && history[k].cause.write.after == op.toSha
    {
      MadeOfMoments(history, k);
      OwnWritesAreFromTo(op, Intended(op), found, history[k].cause.write);
    }
  }

  // ---- What the final check was decided on ---------------------------------------------------------------

  datatype Baseline = Baseline(local: RefMap, remote: map<Ref, Sha>, remoteHead: Ref)

  /** The local store that a passing `_require_final_state` expects. */
  function Expected(op: Operation, first: Store): Store {
    if op.dryRun then first else Moved(op, first, op.toSha)
  }

  function ExpectedSha(op: Operation): Sha {
    if op.dryRun then op.fromSha else op.toSha
  }

  /** The baselines are what the local store and the remote were at two moments, with main at `--from`. */
  predicate Seen(op: Operation, history: seq<Moment>, baseline: Baseline, localAt: nat, remoteAt: nat) {
    && localAt <= remoteAt < |history|
    && Whole(history[localAt].world.local) && history[localAt].world.local != map[]
    && baseline.local == Show(history[localAt].world.local)
    && Tracking(op) in baseline.local && baseline.local[Tracking(op)] == RefState(op.fromSha, None)
    && baseline.remote == history[remoteAt].world.remote && baseline.remoteHead == MAIN
    && MAIN in baseline.remote && baseline.remote[MAIN] == op.fromSha
  }

  /**
   Between the moments the baselines were read and the moments the final maps were read, the remote changed at
   main only, and the local store at main and its tracking ref only, from `--from` to what is expected.
   */
  predicate Proved(op: Operation, history: seq<Moment>, localAt: nat, remoteAt: nat, remoteThen: nat, localThen: nat) {
    && localAt <= remoteAt <= remoteThen <= localThen < |history|
    && var first, refs := history[localAt].world.local, history[remoteAt].world.remote;
       && (op.dryRun || AtFrom(op, first)) && history[localThen].world.local == Expected(op, first)
       && MAIN in refs && refs[MAIN] == op.fromSha
       && history[remoteThen].world.remote == refs[MAIN := ExpectedSha(op)]
  }

  /** Main and its remote-tracking ref went from `--from` to `--to`, and every other ref is as it was. */
  predicate OnlyMainMoved(op: Operation, first: Store, last: Store) {
    && last.Keys == first.Keys
    && forall ref :: ref in first ==>
         if ref in {"refs/heads/main", "refs/remotes/" + op.remote + "/main"}
         then first[ref] == Direct(op.fromSha) && last[ref] == Direct(op.toSha)
         else last[ref] == first[ref]
  }

  lemma ProvedByName(op: Operation, history: seq<Moment>, localAt: nat, remoteAt: nat, remoteThen: nat, localThen: nat)
    requires Proved(op, history, localAt, remoteAt, remoteThen, localThen)
    ensures localAt < |history| && remoteAt < |history| && remoteThen < |history| && localThen < |history|
    ensures !op.dryRun ==>
              && OnlyMainMoved(op, history[localAt].world.local, history[localThen].world.local)
              && history[remoteThen].world.remote == history[remoteAt].world.remote["refs/heads/main" := op.toSha]
  {
  }

  /** The check of the final local map against the baseline. */
  predicate FinalMap(op: Operation, before: RefMap, after: RefMap) {
    if op.dryRun then after == before else LocalDelta(op, before, after, op.toSha)
  }

  lemma FinalMapIsExact(op: Operation, first: Store, last: Store)
    requires Whole(first) && first != map[]
    ensures Whole(last) ==>
              (FinalMap(op, Show(first), Show(last)) <==>
               (op.dryRun || AtFrom(op, first)) && last == Expected(op, first))
  {
    hide Whole, AtFrom, Moved, LocalDelta, Show;
    if Whole(last) {
      SameMapSameStore(first, last);
      LocalDeltaIsExact(op, first, last, op.toSha);
    }
  }

  lemma ShownIsNotEmpty(store: Store, ref: Ref)
    requires ref in Show(store)
    ensures store != map[]
  {
  }
}
