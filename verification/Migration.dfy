/** The supervised migration, over every choice of failing calls. */
module Migration {
  // Timers are stopped, a daemon lock and an exclusive change window are taken, a candidate is deployed,
  // taken back and redeployed, and one compensation follows when anything in between fails.
  // Every injected production call may raise, and a call that changes something may have changed it
  // arbitrarily whether or not it raised; only the reads tell the truth.  `calm` switches the failures off, and
  // `refuses` all but two: the change window cannot be entered, and the daemon lock cannot be released.

  import opened Text

  type Sha = string

  datatype Pair = Pair(sha: Sha, pages: string, worker: string)

  datatype Timer = Timer(enabled: bool, active: bool)

  /** Everything the migration can change apart from the timers. */
  datatype Surfaces = Surfaces(live: Pair, ref: Sha, editor: Sha)

  datatype Failure = Interrupted | Failed | Fenced(proved: bool) | WindowCloseFailed | TimerNotRestored

  datatype Receipt = Receipt(newPair: Pair, restorationProved: bool, returnedToCandidate: bool)

  datatype Ending = Finished(receipt: Receipt) | Raised(failure: Failure)

  datatype Request = Request(candidate: Sha, prior: Pair, johnNotified: bool, queueEmpty: bool, enabled: bool,
                             releaseConfigOff: bool, registryAbsolute: bool, registryLinked: bool)

  predicate IsSha(s: string) {
    |s| == 40 && forall k :: 0 <= k < 40 ==> '0' <= s[k] <= '9' || 'a' <= s[k] <= 'f'
  }

  predicate IsAlphanumeric(c: char) {
    '0' <= c <= '9' || 'A' <= c <= 'Z' || 'a' <= c <= 'z'
  }

  predicate IsProviderId(s: string) {
    && 1 <= |s| <= 128 && IsAlphanumeric(s[0])
    && forall k :: 0 <= k < |s| ==> IsAlphanumeric(s[k]) || s[k] == '.' || s[k] == '_' || s[k] == '-'
  }

  predicate ValidPair(p: Pair) {
    IsSha(p.sha) && IsProviderId(p.pages) && IsProviderId(p.worker)
  }

  predicate Acceptable(q: Request) {
    q.enabled && q.releaseConfigOff && q.johnNotified && q.queueEmpty && IsSha(q.candidate) && ValidPair(q.prior) &&
    q.registryAbsolute && !q.registryLinked
  }

  predicate OfLetters(s: string, least: nat, most: nat, letters: string) {
    least <= |s| <= most && forall k :: 0 <= k < |s| ==> s[k] in letters
  }

  const HEX := "0123456789abcdef"

  const DIGITS := "0123456789"

  const UPPER := "ABCDEFGHIJKLMNOPQRSTUVWXYZ"

  const LOWER := "abcdefghijklmnopqrstuvwxyz"

  const ALPHANUMERIC := DIGITS + UPPER + LOWER

  predicate Names(p: Pair) {
    && OfLetters(p.sha, 40, 40, HEX)
    && OfLetters(p.pages, 1, 128, ALPHANUMERIC + "._-") && p.pages[0] in ALPHANUMERIC
    && OfLetters(p.worker, 1, 128, ALPHANUMERIC + "._-") && p.worker[0] in ALPHANUMERIC
  }

  /** Something is missing from the request, or the release timer is not off. */
  predicate MustRefuse(q: Request, release: Timer) {
    || !q.enabled || !q.releaseConfigOff || !q.johnNotified || !q.queueEmpty || !q.registryAbsolute
    || q.registryLinked || release.enabled || release.active || !OfLetters(q.candidate, 40, 40, HEX) || !Names(q.prior)
  }

  lemma LetterIs(c: char)
    ensures c in HEX <==> '0' <= c <= '9' || 'a' <= c <= 'f'
    ensures c in ALPHANUMERIC <==> IsAlphanumeric(c)
    ensures c in ALPHANUMERIC + "._-" <==> IsAlphanumeric(c) || c == '.' || c == '_' || c == '-'
  {
    hide DIGITS, UPPER, LOWER;
    IsDigit(c);
    IsUpper(c);
    IsLower(c);
  }

  lemma IsDigit(c: char)
    ensures c in DIGITS <==> '0' <= c <= '9'
  {
  }

  lemma IsUpper(c: char)
    ensures c in UPPER <==> 'A' <= c <= 'Z'
  {
  }

  lemma IsLower(c: char)
    ensures c in LOWER <==> 'a' <= c <= 'z'
  {
  }

  lemma AcceptableIsExact(q: Request, release: Timer)
    ensures Acceptable(q) && !On(release) <==> !MustRefuse(q, release)
  {
    ShaIsHex(q.candidate);
    ShaIsHex(q.prior.sha);
    IdIsNamed(q.prior.pages);
    IdIsNamed(q.prior.worker);
  }

  lemma ShaIsHex(s: string)
    ensures IsSha(s) <==> OfLetters(s, 40, 40, HEX)
  {
    hide HEX;
    forall k | 0 <= k < |s| ensures s[k] in HEX <==> '0' <= s[k] <= '9' || 'a' <= s[k] <= 'f' {
      LetterIs(s[k]);
    }
  }

  lemma IdIsNamed(s: string)
    ensures IsProviderId(s) <==> OfLetters(s, 1, 128, ALPHANUMERIC + "._-") && s[0] in ALPHANUMERIC
  {
    hide ALPHANUMERIC, IsAlphanumeric;
    forall k | 0 <= k < |s|
      ensures s[k] in ALPHANUMERIC <==> IsAlphanumeric(s[k])
      ensures s[k] in ALPHANUMERIC + "._-" <==> IsAlphanumeric(s[k]) || s[k] == '.' || s[k] == '_' || s[k] == '-'
    {
      LetterIs(s[k]);
    }
  }

  /** A failure that no fence answers for. */
  predicate Ordinary(f: Failure) {
    f == Interrupted || f == Failed
  }

  predicate On(t: Timer) {
    t.enabled || t.active
  }

  /** The rollback surfaces, in order. */
  datatype Rollback = ActivatePrior | AssertPriorLive | RestoreRef | SyncEditor | ProveSurfaces

  const ROLLBACK: seq<Rollback> := [ActivatePrior, AssertPriorLive, RestoreRef, SyncEditor, ProveSurfaces]

  /** What the migration does inside the window. */
  datatype Step =
    | NoActivity | PriorPairLive | CandidateCommit
    | PhasesPassed | Deployed | DeployedLive | PairRecorded | EditorSynced
    | PriorRestored | PriorLive | CandidateReturned | CandidateLive | SurfacesProved

  const PROOF: seq<Step> := [NoActivity, PriorPairLive, CandidateCommit]

  const DEPLOYMENT: seq<Step> := [PhasesPassed, Deployed, DeployedLive, PairRecorded, EditorSynced]

  const REHEARSAL: seq<Step> := [PriorRestored, PriorLive, CandidateReturned, CandidateLive, SurfacesProved]

  const PROCEDURE: seq<Step> := PROOF + DEPLOYMENT + REHEARSAL

  /** What must have succeeded before anything is done inside the window. */
  datatype Guard = QueueEmpty | ReleaseTimerOff | ApplyTimerRead | ApplyTimerStopped | DaemonLocked | WindowEntered

  const GUARDS: seq<Guard> :=
    [QueueEmpty, ReleaseTimerOff, ApplyTimerRead, ApplyTimerStopped, DaemonLocked, WindowEntered]

  /** One guard after the other. */
  lemma GuardsInOrder()
    ensures |GUARDS| == 6 && GUARDS[..6] == GUARDS
    ensures GUARDS[..3] == [QueueEmpty, ReleaseTimerOff, ApplyTimerRead]
    ensures GUARDS[..4] == GUARDS[..3] + [ApplyTimerStopped] && GUARDS[..5] == GUARDS[..4] + [DaemonLocked]
    ensures GUARDS == GUARDS[..5] + [WindowEntered]
    ensures GUARDS[..5] == [QueueEmpty, ReleaseTimerOff, ApplyTimerRead, ApplyTimerStopped, DaemonLocked]
  {
  }

  const VERIFY_ONLY_PHASES: seq<string> := [
    "candidate-commit", "governed-verification", "generated-build", "generated-artifact-cleanliness", "build-parity",
    "strict-day-zero-enforcement", "preflight", "final-tree-cleanliness"]

  class Run {
    const request: Request
    const calm: bool
    const refuses: bool
    const start: Surfaces
    const startTimer: Timer
    const releaseTimer: Timer

    var now: Surfaces
    var timer: Timer

    var primaryFailure: Option<Failure>
    var candidateCommitProved: bool
    var newPair: Option<Pair>
    var restored: bool
    var returned: bool
    var keepFenced: bool
    var compensationAttempted: bool

    // What has happened so far.
    ghost var entered: bool
    ghost var exited: bool
    ghost var entryRefused: bool
    ghost var closeFailed: bool
    ghost var bodyFailed: bool
    ghost var unlockFailed: bool
    ghost var rollbacks: seq<Rollback>
    ghost var compensated: bool
    ghost var priorProved: bool
    /** The commit for which every surface was last proved. */
    ghost var provedFor: Option<Sha>
    /** `keep_change_window_fenced` has answered `True`. */
    ghost var fenceProved: bool
    ghost var restoreCalls: nat
    /** The guards that were passed, in order. */
    ghost var guards: seq<Guard>
    /** The steps inside the window that succeeded, in order. */
    ghost var steps: seq<Step>
    /** The verification phases that passed, in order. */
    ghost var phases: seq<string>

    constructor (request: Request, calm: bool, refuses: bool, start: Surfaces, startTimer: Timer, releaseTimer: Timer)
      ensures this.request == request && this.calm == calm && this.refuses == refuses && this.start == start
      ensures this.startTimer == startTimer && this.releaseTimer == releaseTimer && Fresh()
    {
      this.request, this.calm, this.refuses, this.start := request, calm, refuses, start;
      this.startTimer, this.releaseTimer := startTimer, releaseTimer;
      now, timer := start, startTimer;
      primaryFailure, candidateCommitProved, newPair := None, false, None;
      restored, returned, keepFenced, compensationAttempted := false, false, false, false;
      entered, exited, entryRefused, closeFailed, bodyFailed, unlockFailed := false, false, false, false, false, false;
      rollbacks, compensated, priorProved, provedFor, fenceProved, restoreCalls := [], false, false, None, false, 0;
      steps, phases, guards := [], [], [];
    }

    ghost predicate Fresh()
      reads this
    {
      Untried() && NotReached() && timer == startTimer && !unlockFailed && provedFor.None? && !fenceProved
          && restoreCalls == 0 && guards == []
    }

    /** Nothing inside the change window has begun. */
    ghost predicate Untried()
      reads this`now, this`primaryFailure, this`candidateCommitProved, this`newPair, this`restored
      reads this`returned, this`keepFenced, this`compensationAttempted, this`bodyFailed, this`rollbacks
      reads this`compensated, this`priorProved, this`steps, this`phases
    {
      && steps == [] && phases == [] && now == start && primaryFailure.None?
      && !candidateCommitProved && newPair.None? && !restored && !returned
      && !keepFenced && !compensationAttempted && !bodyFailed && rollbacks == [] && !compensated && !priorProved
    }

    /** The change window was not reached. */
    ghost predicate NotReached()
      reads this`entered, this`exited, this`entryRefused, this`closeFailed
    {
      !entered && !exited && !entryRefused && !closeFailed
    }

    // ---- Injected calls -------------------------------------------------------------------------------

    /** Only the entry into the window and the release of the lock fail. */
    predicate Refused() {
      refuses && !calm
    }

    method Raises() returns (e: Option<Failure>)
      ensures calm || refuses ==> e.None?
      ensures e.Some? ==> Ordinary(e.value)
    {
      var raised: bool, interrupted: bool := *, *;
      e := if calm || refuses || !raised then None else Some(if interrupted then Interrupted else Failed);
    }

    /** A call that proves a guard. */
    method Pass(guard: Guard) returns (e: Option<Failure>)
      modifies this`guards
      ensures guards == old(guards) + if e.None? then [guard] else []
      ensures calm || refuses ==> e.None?
      ensures e.Some? ==> Ordinary(e.value)
    {
      e := Raises();
      if e.None? {
        guards := guards + [guard];
      }
    }

    /** A call that is a step inside the window. */
    method Perform(step: Step) returns (e: Option<Failure>)
      modifies this`steps
      ensures steps == old(steps) + if e.None? then [step] else []
      ensures calm || refuses ==> e.None?
      ensures e.Some? ==> Ordinary(e.value)
    {
      e := Raises();
      if e.None? {
        Log(step);
      }
    }

    /** The live pair is read back, as a step inside the window. */
    method ProveLive(expected: Pair, step: Step) returns (e: Option<Failure>)
      modifies this`steps
      ensures steps == old(steps) + if e.None? then [step] else []
      ensures e.None? ==> now.live == expected
      ensures e.Some? ==> Ordinary(e.value)
      ensures calm ==> e == if now.live == expected then None else Some(Failed)
    {
      e := AssertLivePair(expected);
      if e.None? {
        Log(step);
      }
    }

    method StopTimer() returns (e: Option<Failure>)
      modifies this`timer
      ensures e.Some? ==> Ordinary(e.value)
      ensures calm || refuses ==> e.None? && timer == Timer(false, false)
    {
      e := Raises();
      timer := *;
      if calm || refuses {
        timer := Timer(false, false);
      }
    }

    method RestoreTimer(state: Timer) returns (e: Option<Failure>)
      modifies this`timer, this`restoreCalls
      ensures restoreCalls == old(restoreCalls) + 1
      ensures calm || refuses ==> e.None? && timer == state
    {
      e := Raises();
      timer, restoreCalls := *, restoreCalls + 1;
      if calm || refuses {
        timer := state;
      }
    }

    method EnterWindow() returns (e: Option<Failure>)
      modifies this`entered, this`guards
      ensures guards == old(guards) + if e.None? then [WindowEntered] else []
      ensures e.Some? ==> Ordinary(e.value) && entered == old(entered)
      ensures e.None? ==> entered
      ensures calm ==> e.None?
      ensures Refused() ==> e == Some(Failed)
    {
      if Refused() {
        return Some(Failed);
      }
      e := Pass(WindowEntered);
      if e.None? {
        entered := true;
      }
    }

    method Unlock() returns (e: Option<Failure>)
      ensures e.Some? ==> Ordinary(e.value)
      ensures calm ==> e.None?
      ensures Refused() ==> e == Some(Failed)
    {
      e := Raises();
      if Refused() {
        e := Some(Failed);
      }
    }

    method ExitWindow() returns (e: Option<Failure>)
      modifies this`exited, this`closeFailed
      ensures exited == e.None? && closeFailed == e.Some?
      ensures calm ==> e.None?
    {
      e := Raises();
      exited, closeFailed := e.None?, e.Some?;
    }

    method DeployCandidate() returns (e: Option<Failure>, pair: Pair)
      modifies this`now
      ensures now.ref == old(now.ref) && now.editor == old(now.editor)
      ensures e.Some? ==> Ordinary(e.value)
      ensures calm ==> e.None? && now.live == pair && ValidPair(pair) && pair.sha == request.candidate
      requires calm ==> IsSha(request.candidate)
    {
      e := Raises();
      var live: Pair := *;
      pair := *;
      if calm {
        pair := Pair(request.candidate, "pages", "worker");
        live := pair;
      }
      now := now.(live := live);
    }

    method ActivatePair(pair: Pair) returns (e: Option<Failure>)
      modifies this`now
      ensures now.ref == old(now.ref) && now.editor == old(now.editor)
      ensures e.Some? ==> Ordinary(e.value)
      ensures calm ==> e.None? && now.live == pair
    {
      e := Raises();
      var live: Pair := *;
      now := now.(live := if calm then pair else live);
    }

    method DeployEditorDev(sha: Sha) returns (e: Option<Failure>)
      modifies this`now
      ensures now.ref == old(now.ref) && now.live == old(now.live)
      ensures e.Some? ==> Ordinary(e.value)
      ensures e.None? ==> now.editor == sha
      ensures calm ==> e.None?
    {
      e := Raises();
      var editor: Sha := *;
      now := now.(editor := if e.None? then sha else editor);
    }

    /** `restore_canonical_ref_exact` and the comparison of its readback. */
    method RestoreCanonicalRef() returns (e: Option<Failure>)
      modifies this`now
      ensures now.editor == old(now.editor) && now.live == old(now.live)
      ensures e.None? ==> now.ref == request.prior.sha
      ensures calm ==> e.None?
    {
      e := Raises();
      var sha: Sha := *;
      now := now.(ref := if calm then request.prior.sha else sha);
      if e.None? && now.ref != request.prior.sha {
        e := Some(Failed);
      }
    }

    method ProveAllSurfaces(sha: Sha) returns (e: Option<Failure>)
      modifies this`provedFor
      ensures provedFor == if e.None? then Some(sha) else old(provedFor)
      ensures e.Some? ==> Ordinary(e.value)
      ensures calm ==> e.None?
    {
      e := Raises();
      if e.None? {
        provedFor := Some(sha);
      }
    }

    method AssertLivePair(expected: Pair) returns (e: Option<Failure>)
      ensures e.None? ==> now.live == expected
      ensures e.Some? ==> Ordinary(e.value)
      ensures calm ==> e == if now.live == expected then None else Some(Failed)
    {
      e := Raises();
      if e.None? && now.live != expected {
        e := Some(Failed);
      }
    }

    /** The eight phases, one after the other, until one raises. */
    method RunPhases() returns (e: Option<Failure>)
      requires phases == []
      modifies this`phases
      ensures calm ==> e.None?
      ensures e.Some? ==> Ordinary(e.value)
      ensures phases <= VERIFY_ONLY_PHASES && (e.None? <==> AllPhases())
    {
      var k := 0;
      e := None;
      while k < |VERIFY_ONLY_PHASES| && e.None?
        invariant k <= |VERIFY_ONLY_PHASES| && (k == 0 ==> e.None?)
        invariant phases == VERIFY_ONLY_PHASES[..if e.None? then k else k - 1]
        invariant calm ==> e.None?
        invariant e.Some? ==> Ordinary(e.value)
      {
        e := RunPhase(VERIFY_ONLY_PHASES[k]);
        k := k + 1;
      }
    }

    method RunPhase(phase: string) returns (e: Option<Failure>)
      modifies this`phases
      ensures phases == old(phases) + if e.None? then [phase] else []
      ensures calm ==> e.None?
      ensures e.Some? ==> Ordinary(e.value)
    {
      e := Raises();
      if e.None? {
        phases := phases + [phase];
      }
    }

    ghost predicate AllPhases()
      reads this`phases
    {
      phases == ["candidate-commit", "governed-verification", "generated-build", "generated-artifact-cleanliness",
                 "build-parity", "strict-day-zero-enforcement", "preflight", "final-tree-cleanliness"]
    }

    /** The production adapter is asked whether the complete prior state stands. */
    method AskPriorState() returns (e: Option<Failure>, answer: bool)
      modifies this`priorProved
      ensures priorProved == (old(priorProved) || (e.None? && answer))
      ensures e.Some? ==> Ordinary(e.value)
      ensures calm ==> e.None? && answer
    {
      e := Raises();
      answer := *;
      answer := answer || calm;
      priorProved := priorProved || (e.None? && answer);
    }

    /** `_prove_complete_prior_state`: an affirmative answer, not merely no error. */
    method ProvePriorState() returns (e: Option<Failure>)
      modifies this`priorProved
      ensures e.None? ==> priorProved
      ensures e.Some? ==> priorProved == old(priorProved)
      ensures calm ==> e.None?
    {
      var answer;
      e, answer := AskPriorState();
      if e.None? && !answer {
        e := Some(Failed);
      }
    }

    /** `_prove_persistent_fence`: the failure to report, and whether it is raised rather than returned. */
    method PersistentFence() returns (failure: Failure, raised: bool)
      modifies this`fenceProved
      ensures failure == Fenced(!raised) && fenceProved == (old(fenceProved) || !raised)
    {
      var e := Raises();
      var answer: bool := *;
      fenceProved := fenceProved || (e.None? && answer);
      raised := !(e.None? && answer);
      failure := Fenced(!raised);
    }

    // ---- Compensation ------------------------------------------------------------------------------------

    ghost predicate AtPrior()
      reads this`now, this`provedFor
    {
      now == Surfaces(request.prior, request.prior.sha, request.prior.sha) && provedFor == Some(request.prior.sha)
    }

    /** `_compensate_to_prior`: every surface is attempted, and `true` means all of them succeeded. */
    method CompensateToPrior() returns (ok: bool)
      modifies this`now, this`provedFor, this`rollbacks, this`compensated
      ensures rollbacks == old(rollbacks) + ROLLBACK && compensated == ok
      ensures ok ==> AtPrior()
      ensures calm ==> ok
    {
      var failed := false;
      var k := 0;
      while k < |ROLLBACK|
        invariant k <= |ROLLBACK| && rollbacks == old(rollbacks) + ROLLBACK[..k]
        invariant calm ==> !failed && (k > 0 ==> now.live == request.prior)
        invariant !failed ==>
                    && (k > 1 ==> now.live == request.prior) && (k > 2 ==> now.ref == request.prior.sha)
                    && (k > 3 ==> now.editor == request.prior.sha) && (k > 4 ==> provedFor == Some(request.prior.sha))
      {
        var e := Attempt(ROLLBACK[k]);
        rollbacks := rollbacks + [ROLLBACK[k]];
        failed := failed || e.Some?;
        k := k + 1;
      }
      compensated := !failed;
      return !failed;
    }

    method Attempt(action: Rollback) returns (e: Option<Failure>)
      modifies this`now, this`provedFor
      ensures !action.ActivatePrior? ==> now.live == old(now.live)
      ensures !action.RestoreRef? ==> now.ref == old(now.ref)
      ensures !action.SyncEditor? ==> now.editor == old(now.editor)
      ensures e.None? ==>
                match action
                case ActivatePrior => true
                case AssertPriorLive => now.live == request.prior
                case RestoreRef => now.ref == request.prior.sha
                case SyncEditor => now.editor == request.prior.sha
                case ProveSurfaces => provedFor == Some(request.prior.sha)
      ensures calm && (action.AssertPriorLive? ==> now.live == request.prior) ==> e.None?
      ensures calm && action.ActivatePrior? ==> now.live == request.prior
    {
      match action
      case ActivatePrior => e := ActivatePair(request.prior);
      case AssertPriorLive => e := AssertLivePair(request.prior);
      case RestoreRef => e := RestoreCanonicalRef();
      case SyncEditor => e := DeployEditorDev(request.prior.sha);
      case ProveSurfaces => e := ProveAllSurfaces(request.prior.sha);
    }

    // ---- Inside the window ---------------------------------------------------------------------------------

    ghost method Log(step: Step)
      modifies this`steps
      ensures steps == old(steps) + [step]
    {
      steps := steps + [step];
    }

    /** The steps taken are a beginning of the procedure, in its order. */
    ghost predicate InOrder()
      reads this`steps
    {
      steps <= PROCEDURE
    }

    /** The whole procedure was gone through: the candidate is live, synchronised and proved, after the way back was. */
    ghost predicate AtCandidate()
      reads this`now, this`provedFor, this`restored, this`returned, this`newPair, this`steps, this`phases
    {
      && steps == PROCEDURE && AllPhases() && restored && returned
      && newPair.Some? && newPair.value.sha == request.candidate && ValidPair(newPair.value)
      && now.live == newPair.value && now.ref == start.ref && now.editor == request.candidate
         && provedFor == Some(request.candidate)
    }

    /** Up to the proof that the candidate is the exact committed migration. */
    method ProveCandidate() returns (e: Option<Failure>)
      requires steps == []
      modifies this`candidateCommitProved, this`steps
      ensures InOrder() && (e.None? ==> steps == PROOF)
      ensures candidateCommitProved == (old(candidateCommitProved) || e.None?)
      ensures e.Some? ==> Ordinary(e.value)
      ensures calm ==> e == if now.live == request.prior then None else Some(Failed)
    {
      e := Perform(NoActivity);
      if e.Some? {
        return;
      }
      e := ProveLive(request.prior, PriorPairLive);
      if e.Some? {
        return;
      }
      e := Perform(CandidateCommit);
      if e.None? {
        candidateCommitProved := true;
      }
    }

    /** From the verification phases to the synchronised candidate. */
    method Deploy() returns (e: Option<Failure>)
      requires steps == PROOF && phases == [] && now == start && (calm ==> IsSha(request.candidate))
      modifies this`now, this`newPair, this`steps, this`phases
      ensures InOrder() && now.ref == start.ref
      ensures e.None? ==>
                && steps == PROOF + DEPLOYMENT && AllPhases() && newPair.Some? && newPair.value.sha == request.candidate
                && ValidPair(newPair.value) && now.live == newPair.value && now.editor == request.candidate
      ensures e.Some? ==> Ordinary(e.value)
      ensures calm ==> e.None?
    {
      hide AllPhases, IsProviderId, IsSha, VERIFY_ONLY_PHASES;
      e := RunPhases();
      if e.Some? {
        return;
      }
      Log(PhasesPassed);
      var pair: Pair;
      e, pair := DeployCandidate();
      if e.Some? {
        return;
      }
      newPair := Some(pair);
      if !ValidPair(pair) || pair.sha != request.candidate {
        return Some(Failed);
      }
      Log(Deployed);
      e := ProveLive(pair, DeployedLive);
      if e.Some? {
        return;
      }
      e := Perform(PairRecorded);
      if e.Some? {
        return;
      }
      e := DeployEditorDev(request.candidate);
      if e.Some? {
        return;
      }
      Log(EditorSynced);
    }

    /** Back to the prior pair and forward again, each read back, up to the proved candidate. */
    method Rehearse(pair: Pair) returns (e: Option<Failure>)
      requires steps == PROOF + DEPLOYMENT && !returned && now.editor == request.candidate
      modifies this`now, this`restored, this`returned, this`provedFor, this`steps
      ensures InOrder() && now.ref == old(now.ref) && now.editor == request.candidate
      ensures e.None? ==>
                && steps == PROCEDURE && restored && returned
                && now.live == pair && provedFor == Some(request.candidate)
      ensures e.Some? ==> Ordinary(e.value) && !returned
      ensures calm ==> e.None?
    {
      e := ActivatePair(request.prior);
      if e.Some? {
        return;
      }
      Log(PriorRestored);
      e := ProveLive(request.prior, PriorLive);
      if e.Some? {
        return;
      }
      restored := true;
      e := ActivatePair(pair);
      if e.Some? {
        return;
      }
      Log(CandidateReturned);
      e := ProveLive(pair, CandidateLive);
      if e.Some? {
        return;
      }
      e := ProveAllSurfaces(request.candidate);
      if e.Some? {
        return;
      }
      Log(SurfacesProved);
      returned := true;
    }

    /** From the verification phases to the proved candidate. */
    method Migrate() returns (e: Option<Failure>)
      requires steps == PROOF && phases == [] && !restored && !returned && now == start
      requires calm ==> IsSha(request.candidate)
      modifies this`now, this`newPair, this`restored, this`returned, this`provedFor, this`steps, this`phases
      ensures InOrder() && (e.None? ==> AtCandidate() && newPair.Some? && restored && returned)
      ensures e.Some? ==> Ordinary(e.value)
      ensures e.Some? ==> !returned
      ensures calm ==> e.None?
    {
      hide InOrder, PROOF, DEPLOYMENT, PROCEDURE, IsSha, AllPhases, ValidPair;
      e := Deploy();
      if e.None? {
        e := Rehearse(newPair.value);
      }
    }

    /** The failed body was made good: by one complete compensation, or because nothing had changed yet. */
    ghost predicate BackAtPrior()
      reads this`candidateCommitProved, this`compensated, this`now, this`provedFor, this`priorProved
    {
      if candidateCommitProved then compensated && AtPrior() else priorProved && now == start
    }

    ghost predicate CompensatedOnce()
      reads this`rollbacks, this`compensationAttempted
    {
      rollbacks == if compensationAttempted then ROLLBACK else []
    }

    /** A failure left the window's body with neither the candidate nor the prior state proved. */
    ghost predicate Unproved()
      reads this`bodyFailed, this`candidateCommitProved, this`compensated, this`priorProved
    {
      bodyFailed && !(if candidateCommitProved then compensated else priorProved)
    }

    /** The recorded failure speaks of a fence only when one was asked for and proved. */
    ghost predicate FailureIsHonest()
      reads this`primaryFailure, this`keepFenced, this`fenceProved
    {
      primaryFailure.Some? ==>
        Ordinary(primaryFailure.value) || (primaryFailure == Some(Fenced(true)) && keepFenced && fenceProved)
    }

    /** What is in place when the window is about to close. */
    ghost predicate Settled()
      reads this`now, this`provedFor, this`candidateCommitProved, this`compensationAttempted
      reads this`bodyFailed, this`keepFenced, this`compensated, this`priorProved, this`primaryFailure
      reads this`returned, this`restored, this`newPair, this`rollbacks, this`fenceProved, this`steps, this`phases
    {
      && (candidateCommitProved || now == start) && (compensationAttempted <==> bodyFailed && candidateCommitProved)
      && (keepFenced <==> Unproved()) && (primaryFailure.Some? <==> bodyFailed)
      && (!bodyFailed ==> candidateCommitProved && newPair.Some? && restored && AtCandidate())
         && (bodyFailed && !keepFenced ==> BackAtPrior())
      && (returned <==> !bodyFailed) && CompensatedOnce() && FailureIsHonest()
    }

    /** The `except` inside the window. */
    method Recover(failure: Failure) returns (escaped: Option<Failure>)
      requires !compensationAttempted && !keepFenced && !bodyFailed && rollbacks == [] && !returned && !priorProved
      requires !compensated && (candidateCommitProved || now == start) && Ordinary(failure)
      modifies this`primaryFailure, this`keepFenced, this`compensationAttempted, this`bodyFailed, this`fenceProved
      modifies this`now, this`provedFor, this`rollbacks, this`compensated, this`priorProved
      ensures bodyFailed && Settled()
      ensures escaped.Some? ==> escaped == Some(Fenced(false)) && keepFenced
      ensures keepFenced && escaped.None? ==> primaryFailure == Some(Fenced(true)) && fenceProved
      ensures calm ==> !keepFenced && primaryFailure == Some(failure) && escaped.None?
    {
      hide ROLLBACK, AtCandidate, AtPrior, PROCEDURE;
      primaryFailure, bodyFailed, escaped := Some(failure), true, None;
      var proved: bool;
      if candidateCommitProved {
        compensationAttempted := true;
        assert [] + ROLLBACK == ROLLBACK;
        proved := CompensateToPrior();
      } else {
        var e := ProvePriorState();
        proved := e.None?;
      }
      if !proved {
        keepFenced := true;
        var fence, raised := PersistentFence();
        if raised {
          return Some(fence);
        }
        primaryFailure := Some(fence);
      }
    }

    /** The window's body with its `except`; a failure that escapes it is a fence that was not proved. */
    method Body() returns (escaped: Option<Failure>)
      requires Untried() && (calm ==> IsSha(request.candidate))
      modifies this`primaryFailure, this`keepFenced, this`compensationAttempted, this`bodyFailed, this`fenceProved
      modifies this`now, this`provedFor, this`rollbacks, this`compensated, this`priorProved
      modifies this`candidateCommitProved, this`newPair, this`restored, this`returned, this`steps, this`phases
      ensures Settled() && InOrder()
      ensures escaped.Some? ==> escaped == Some(Fenced(false)) && keepFenced
      ensures keepFenced && escaped.None? ==> primaryFailure == Some(Fenced(true))
      ensures calm ==> !keepFenced && escaped.None? && (bodyFailed <==> start.live != request.prior)
      ensures calm && bodyFailed ==> primaryFailure == Some(Failed) && !candidateCommitProved
    {
      hide ROLLBACK, AtCandidate, AtPrior, IsSha, PROCEDURE;
      escaped := None;
      var e := ProveCandidate();
      if e.None? {
        e := Migrate();
      }
      if e.Some? {
        escaped := Recover(e.value);
      }
    }

    /** The exclusive window around the body, and the handler of a failed close. */
    method Window() returns (escaped: Option<Failure>)
      requires Untried() && NotReached() && (calm ==> IsSha(request.candidate))
      modifies this`primaryFailure, this`keepFenced, this`compensationAttempted, this`bodyFailed, this`fenceProved
      modifies this`now, this`provedFor, this`rollbacks, this`compensated, this`priorProved
      modifies this`candidateCommitProved, this`newPair, this`restored, this`returned, this`steps, this`phases
      modifies this`entered, this`exited, this`entryRefused, this`closeFailed, this`guards
      ensures guards == old(guards) + if entered then [WindowEntered] else []
      ensures CompensatedOnce() && InOrder()
      ensures !entered ==> Untried() && !exited && !closeFailed && escaped.Some?
      ensures !entered ==> (entryRefused <==> escaped.value.Fenced?)
      ensures !entered && escaped == Some(Fenced(true)) ==> fenceProved
      ensures escaped.Some? ==> Ordinary(escaped.value) || escaped.value.Fenced?
      ensures entered ==> !entryRefused && (keepFenced <==> closeFailed || Unproved()) && (exited <==> !closeFailed)
      ensures entered && exited ==> Settled()
      ensures entered && escaped.Some? ==> keepFenced && escaped == Some(Fenced(false))
      ensures entered && keepFenced && escaped.None? ==> primaryFailure == Some(Fenced(true))
      ensures FailureIsHonest()
      ensures calm ==>
                && entered && exited && escaped.None? && !keepFenced && (bodyFailed <==> start.live != request.prior)
      ensures calm && bodyFailed ==> primaryFailure == Some(Failed) && !candidateCommitProved
      ensures Refused() ==> !entered && entryRefused
    {
      hide ROLLBACK, AtCandidate, AtPrior, IsSha, PROCEDURE;
      escaped := EnterWindow();
      if escaped.Some? {
        if escaped.value != Interrupted {
          entryRefused := true;
          var fence, _ := PersistentFence();
          escaped := Some(fence);
        }
        return;
      }
      escaped := Body();
      var close := ExitWindow();
      if close.Some? {
        escaped := FailedClose();
      }
    }

    /** The handler of `ChangeWindowCloseError`, which outranks whatever the body had to report. */
    method FailedClose() returns (escaped: Option<Failure>)
      requires CompensatedOnce() && FailureIsHonest()
      modifies this`primaryFailure, this`keepFenced, this`compensationAttempted, this`fenceProved
      modifies this`now, this`provedFor, this`rollbacks, this`compensated
      ensures keepFenced && CompensatedOnce() && (candidateCommitProved ==> compensationAttempted)
      ensures escaped.Some? ==> escaped == Some(Fenced(false))
      ensures escaped.None? ==> primaryFailure == Some(Fenced(true))
      ensures FailureIsHonest()
    {
      hide ROLLBACK, AtCandidate, AtPrior, PROCEDURE;
      keepFenced, escaped := true, None;
      if candidateCommitProved && !compensationAttempted {
        compensationAttempted := true;
        assert [] + ROLLBACK == ROLLBACK;
        var _ := CompensateToPrior();
      }
      var fence, raised := PersistentFence();
      if raised {
        return Some(fence);
      }
      primaryFailure := Some(fence);
    }

    /** The apply timer is stopped, and seen to be. */
    method StopApplyTimer() returns (e: Option<Failure>)
      modifies this`timer, this`guards
      ensures guards == old(guards) + if e.None? then [ApplyTimerStopped] else []
      ensures e.Some? ==> Ordinary(e.value)
      ensures e.None? ==> !On(timer)
      ensures calm || refuses ==> e.None?
    {
      e := StopTimer();
      if e.Some? {
        return;
      }
      e := Raises();
      if e.None? && On(timer) {
        e := Some(Failed);
      }
      if e.None? {
        guards := guards + [ApplyTimerStopped];
      }
    }

    /** The release timer is read, and off. */
    method ReleaseTimerIsOff() returns (e: Option<Failure>)
      modifies this`guards
      ensures guards == old(guards) + if e.None? then [ReleaseTimerOff] else []
      ensures e.None? ==> !On(releaseTimer)
      ensures e.Some? ==> Ordinary(e.value)
      ensures (calm || refuses) && !On(releaseTimer) ==> e.None?
    {
      e := Raises();
      if e.None? && On(releaseTimer) {
        e := Some(Failed);
      }
      if e.None? {
        guards := guards + [ReleaseTimerOff];
      }
    }

    /** What is looked at before anything is touched. */
    method ReadFirst() returns (e: Option<Failure>)
      requires guards == []
      modifies this`guards
      ensures e.None? ==> guards == GUARDS[..3] && !On(releaseTimer)
      ensures guards <= GUARDS[..3] && (e.Some? ==> Ordinary(e.value))
      ensures (calm || refuses) && !On(releaseTimer) ==> e.None?
    {
      e := Pass(QueueEmpty);
      if e.Some? {
        return;
      }
      e := ReleaseTimerIsOff();
      if e.Some? {
        return;
      }
      e := Pass(ApplyTimerRead);
    }

    /** What may have escaped from the lock, and what holds then. */
    ghost predicate Supervised(escaped: Option<Failure>)
      reads this
    {
      && restoreCalls == 0 && CompensatedOnce() && InOrder()
      && (!entered ==> Untried() && !exited && !closeFailed && escaped.Some?)
      && (!entered && escaped.value.Fenced? ==> entryRefused && (escaped.value.proved ==> fenceProved))
      && (!entered && entryRefused && !unlockFailed ==> escaped.value.Fenced?)
      && (entered ==> !entryRefused && (keepFenced <==> closeFailed || Unproved()) && (exited <==> !closeFailed))
      && (entered && exited ==> Settled())
      && (entered && escaped.Some? && !unlockFailed ==> keepFenced && escaped == Some(Fenced(false)))
      && (escaped.Some? ==> Ordinary(escaped.value) || escaped.value.Fenced?)
      && (entered && keepFenced && !unlockFailed ==>
            if escaped.Some? then escaped == Some(Fenced(false)) else primaryFailure == Some(Fenced(true)))
      && FailureIsHonest() && (unlockFailed ==> escaped.Some? && Ordinary(escaped.value))
      && (entered && !bodyFailed && !closeFailed && !unlockFailed ==> escaped.None?)
    }

    /** Everything between stopping the apply timer and letting the daemon lock go: the failure raised, if any. */
    method Supervise() returns (escaped: Option<Failure>)
      requires Begun() && (calm ==> IsSha(request.candidate))
      modifies this
      ensures Supervised(escaped) && Guarded()
      ensures entered || entryRefused ==> !On(timer)
      ensures calm ==> !On(timer)
      ensures calm ==>
                && entered && exited && escaped.None? && !unlockFailed && !keepFenced
                && (bodyFailed <==> start.live != request.prior)
      ensures calm && bodyFailed ==> primaryFailure == Some(Failed) && !candidateCommitProved
      ensures Refused() ==> !entered && entryRefused && unlockFailed && escaped == Some(Failed) && primaryFailure.None?
    {
      hide ROLLBACK, AtCandidate, AtPrior, IsSha, Settled, PROCEDURE, GUARDS;
      GuardsInOrder();
      escaped := StopApplyTimer();
      if escaped.Some? {
        return;
      }
      escaped := Pass(DaemonLocked);
      if escaped.Some? {
        return;
      }
      escaped := Locked();
    }

    /** The window under the lock, whose failing release replaces every other failure. */
    method Locked() returns (escaped: Option<Failure>)
      requires Untried() && NotReached() && !unlockFailed && restoreCalls == 0 && (calm ==> IsSha(request.candidate))
      modifies this
      ensures Supervised(escaped) && timer == old(timer)
      ensures guards == old(guards) + if entered then [WindowEntered] else []
      ensures calm ==>
                && entered && exited && escaped.None? && !unlockFailed && !keepFenced
                && (bodyFailed <==> start.live != request.prior)
      ensures calm && bodyFailed ==> primaryFailure == Some(Failed) && !candidateCommitProved
      ensures Refused() ==> !entered && entryRefused && unlockFailed && escaped == Some(Failed) && primaryFailure.None?
    {
      hide ROLLBACK, AtCandidate, AtPrior, IsSha, Settled, PROCEDURE;
      escaped := Window();
      var unlock := Unlock();
      if unlock.Some? {
        unlockFailed, escaped := true, unlock;
      }
    }

    /** What stood before the timer was stopped. */
    ghost predicate Begun()
      reads this
    {
      Untried() && NotReached() && timer == startTimer && !unlockFailed && provedFor.None? && !fenceProved
          && restoreCalls == 0 && |GUARDS| == 6 && guards == GUARDS[..3]
    }

    /** The guards were passed in order; all of them before the window was entered, all but that before it refused. */
    ghost predicate Guarded()
      reads this`guards, this`entered, this`entryRefused
    {
      && |GUARDS| == 6 && guards <= GUARDS && (entered <==> guards == GUARDS)
      && (entryRefused ==> guards == GUARDS[..5])
    }

    /** Where the run stands when only the timer policy is left to decide. */
    ghost predicate Decided()
      reads this
    {
      && CompensatedOnce() && InOrder() && restoreCalls == 0 && Guarded()
      && (!entered ==> now == start && !compensationAttempted)
      && (entered && !keepFenced ==> exited && (if bodyFailed then BackAtPrior() else AtCandidate()))
      && (keepFenced <==> closeFailed || (entered && Unproved()) || (entryRefused && !unlockFailed))
      && (keepFenced ==> !On(timer))
      && (keepFenced && !unlockFailed ==> primaryFailure.Some? && primaryFailure.value.Fenced?)
      && (primaryFailure.Some? && primaryFailure.value.Fenced? ==> keepFenced)
      && (primaryFailure == Some(Fenced(true)) ==> fenceProved)
      && (primaryFailure != Some(TimerNotRestored))
      && (primaryFailure.None? ==>
            entered && exited && !bodyFailed && newPair.Some? && restored && returned && !compensationAttempted &&
            !keepFenced && !On(timer))
    }

    /** The `try` of `execute` with its outer `except`. */
    method Contain()
      requires Begun() && (calm ==> IsSha(request.candidate))
      modifies this
      ensures Decided()
      ensures calm ==>
                && !keepFenced && entered && !On(timer) && (primaryFailure.None? <==> start.live == request.prior)
                && (primaryFailure.Some? ==> primaryFailure == Some(Failed) && !candidateCommitProved && bodyFailed)
      ensures Refused() ==> entryRefused && unlockFailed && !keepFenced && primaryFailure == Some(Failed)
    {
      hide ROLLBACK, AtCandidate, AtPrior, IsSha, PROCEDURE;
      var escaped := Supervise();
      if escaped.Some? {
        if escaped.value.Fenced? {
          keepFenced := true;
        }
        if primaryFailure.None? || escaped.value.Fenced? {
          primaryFailure := escaped;
        }
      }
    }

    /** The `finally`: the prior policy comes back unless a fence stands. */
    method RestorePolicy()
      modifies this`timer, this`restoreCalls, this`primaryFailure
      ensures restoreCalls == old(restoreCalls) + if !keepFenced && On(startTimer) then 1 else 0
      ensures restoreCalls == old(restoreCalls) ==> timer == old(timer) && primaryFailure == old(primaryFailure)
      ensures restoreCalls != old(restoreCalls) ==>
                || primaryFailure == Some(TimerNotRestored)
                || (timer == startTimer && primaryFailure == old(primaryFailure))
      ensures calm || refuses ==> primaryFailure == old(primaryFailure)
    {
      if keepFenced || !On(startTimer) {
        return;
      }
      var e := RestoreTimer(startTimer);
      if e.None? {
        e := Raises();
      }
      if e.Some? || timer != startTimer {
        primaryFailure := Some(TimerNotRestored);
      }
    }

    /**
     `execute`, over every choice of failing calls.

     The apply timer is given its policy back only when no fence stands: the window was never entered and
     nothing changed, or it was closed with the candidate proved, or closed with the prior state proved.
     The steps inside the window are taken in the order of the procedure, and a normal return means that all of
     them were: the candidate was proved after the way back had been, and the timer is as it was.
     Compensation is attempted at most once, and always on every surface.
     */
    method Execute() returns (ending: Ending)
      requires Fresh()
      modifies this
      ensures CompensatedOnce() && InOrder() && restoreCalls <= 1
      ensures entered ==>
                guards == [QueueEmpty, ReleaseTimerOff, ApplyTimerRead, ApplyTimerStopped, DaemonLocked, WindowEntered]
      ensures entryRefused ==>
                guards == [QueueEmpty, ReleaseTimerOff, ApplyTimerRead, ApplyTimerStopped, DaemonLocked]
      ensures compensationAttempted ==>
                rollbacks == [ActivatePrior, AssertPriorLive, RestoreRef, SyncEditor, ProveSurfaces]
      ensures !entered ==> now == start && !compensationAttempted
      ensures MustRefuse(request, releaseTimer) ==>
                ending.Raised? && !entered && steps == [] && timer == startTimer && restoreCalls == 0
      ensures restoreCalls == 1 ==>
                && !keepFenced && On(startTimer)
                && (!entered || (exited && (if bodyFailed then BackAtPrior() else AtCandidate())))
      ensures keepFenced <==> closeFailed || (entered && Unproved()) || (entryRefused && !unlockFailed)
      ensures keepFenced ==> !On(timer) && restoreCalls == 0
      ensures ending == Raised(Fenced(true)) ==> fenceProved
      ensures keepFenced && !unlockFailed ==> ending.Raised? && ending.failure.Fenced?
      ensures ending.Raised? && ending.failure.Fenced? ==> keepFenced
      ensures ending.Finished? ==>
                && entered && exited && restored && returned && AtCandidate() && timer == startTimer && !keepFenced
                && !compensationAttempted && (On(startTimer) ==> restoreCalls == 1)
                && ending.receipt == Receipt(newPair.value, true, true)
      ensures On(startTimer) && ending.Raised? && !keepFenced && ending.failure != TimerNotRestored ==>
                timer == startTimer
      ensures calm && !MustRefuse(request, releaseTimer) ==>
                && !keepFenced && timer == startTimer && (start.live == request.prior ==> ending.Finished?)
                && (start.live != request.prior ==> ending == Raised(Failed) && BackAtPrior())
      ensures Refused() && Acceptable(request) && !On(releaseTimer) ==>
                && entryRefused && unlockFailed && !keepFenced && ending == Raised(Failed)
                && (On(startTimer) ==> restoreCalls == 1 && timer == startTimer)
    {
      hide AtCandidate, BackAtPrior, IsSha, Unproved, PROCEDURE, MustRefuse, ValidPair, GUARDS;
      GuardsInOrder();
      AcceptableIsExact(request, releaseTimer);
      if !Acceptable(request) {
        return Raised(Failed);
      }
      var e := ReadFirst();
      if e.Some? {
        return Raised(e.value);
      }
      Contain();
      RestorePolicy();
      if primaryFailure.Some? {
        return Raised(primaryFailure.value);
      }
      return Finished(Receipt(newPair.value, restored, returned));
    }
  }

  /**
   A run in which a fence was asked for and the apply timer comes back on all the same: the window is refused, and
   then the lock cannot be released, so that the plain failure of the lock replaces the fence error.
   */
  method TimerBackUnfenced(request: Request, start: Surfaces, startTimer: Timer) returns (run: Run, ending: Ending)
    requires Acceptable(request) && On(startTimer)
    ensures fresh(run) && run.request == request && run.startTimer == startTimer
    ensures run.entryRefused && run.unlockFailed && !run.keepFenced && ending == Raised(Failed)
    ensures run.restoreCalls == 1 && run.timer == startTimer
  {
    run := new Run(request, false, true, start, startTimer, Timer(false, false));
    ending := run.Execute();
  }
}
