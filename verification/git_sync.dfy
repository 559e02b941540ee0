/**
 * The watcher's synchronisation logic in `AgenticLatexGitPush.py`: the file
 * event gate of `LatexFileHandler`, the guarded copy into the repository,
 * the lock-file retry loop `write_with_lock`, `update_local_file` and one
 * cycle of the remote checker. Git, the file system and the lock are
 * abstract: their outcomes are inputs and their calls are recorded as steps.
 * Time is an integer number of seconds.
 */
module GitSync {
  import opened Text
  import opened OsEnviron

  // ---------------------------------------------------------------------
  // write_with_lock
  // ---------------------------------------------------------------------

  /** What one attempt does to the lock file and the target file, in order. */
  datatype LockStep =
    | OpenLockFile
    | TryLock(acquired: bool)
    | WriteFile(content: string)
    | Sleep
    | Unlock
    | CloseLockFile
    | RemoveLockFile

  /** Returned after a write, raised `TimeoutError`, or no attempt at all. */
  datatype LockResult = Written | TimedOut | NoAttempt

  datatype LockRun = LockRun(result: LockResult, steps: seq<LockStep>)

  /** The `finally` block that ends every attempt. */
  const Release := [Unlock, CloseLockFile, RemoveLockFile]

  /** An attempt that got the lock: it writes and returns. */
  function WrittenAttempt(content: string): seq<LockStep>
  {
    [OpenLockFile, TryLock(true), WriteFile(content)] + Release
  }

  /** An attempt that did not get the lock: it sleeps unless it was the last one. */
  function FailedAttempt(last: bool): seq<LockStep>
  {
    [OpenLockFile, TryLock(false)] + (if last then [] else [Sleep]) + Release
  }

  /** The attempts from number `k` on; `acquired(k)` says whether attempt `k` gets the lock. */
  function AttemptsFrom(content: string, maxAttempts: int, acquired: nat -> bool, k: nat): LockRun
    requires k < maxAttempts
    decreases maxAttempts - k
  {
    if acquired(k) then LockRun(Written, WrittenAttempt(content))
    else if k + 1 >= maxAttempts then LockRun(TimedOut, FailedAttempt(true))
    else
      var rest := AttemptsFrom(content, maxAttempts, acquired, k + 1);
      LockRun(rest.result, FailedAttempt(false) + rest.steps)
  }

  /** What `write_with_lock` does. */
  function LockRunOf(content: string, maxAttempts: int, acquired: nat -> bool): LockRun
  {
    if maxAttempts <= 0 then LockRun(NoAttempt, []) else AttemptsFrom(content, maxAttempts, acquired, 0)
  }

  /** `write_with_lock`: the attempt loop. */
  method WriteWithLock(content: string, maxAttempts: int, acquired: nat -> bool)
    returns (result: LockResult, steps: seq<LockStep>)
    ensures LockRun(result, steps) == LockRunOf(content, maxAttempts, acquired)
  {
    ghost var goal := LockRunOf(content, maxAttempts, acquired);
    steps := [];
    var attempt: nat := 0;
    while attempt < maxAttempts
      invariant attempt > 0 ==> attempt < maxAttempts
      invariant attempt == 0 ==> steps == []
      invariant attempt < maxAttempts ==> Remaining(goal, steps, AttemptsFrom(content, maxAttempts, acquired, attempt))
      decreases maxAttempts - attempt
    {
      var done, r, block := LockAttempt(content, maxAttempts, acquired, attempt);
      if done {
        return r, steps + block;
      }
      ghost var rest := AttemptsFrom(content, maxAttempts, acquired, attempt + 1);
      assert steps + (block + rest.steps) == (steps + block) + rest.steps;
      steps := steps + block;
      attempt := attempt + 1;
    }
    result := NoAttempt;
  }

  /** The run so far, `steps`, followed by the run of the remaining attempts, is the whole run. */
  ghost predicate Remaining(goal: LockRun, steps: seq<LockStep>, rest: LockRun)
  {
    goal == LockRun(rest.result, steps + rest.steps)
  }

  /** One pass of the loop body: open, try the lock, then write and return, raise, or sleep; the `finally` block always. */
  method LockAttempt(content: string, maxAttempts: int, acquired: nat -> bool, attempt: nat)
    returns (done: bool, result: LockResult, block: seq<LockStep>)
    requires attempt < maxAttempts
    ensures done ==> AttemptsFrom(content, maxAttempts, acquired, attempt) == LockRun(result, block)
    ensures !done ==> attempt + 1 < maxAttempts
    ensures !done ==>
      var rest := AttemptsFrom(content, maxAttempts, acquired, attempt + 1);
      AttemptsFrom(content, maxAttempts, acquired, attempt) == LockRun(rest.result, block + rest.steps)
  {
    block := [OpenLockFile, TryLock(acquired(attempt))];
    result := NoAttempt;
    if acquired(attempt) {
      block := block + [WriteFile(content)] + Release;
      return true, Written, block;
    }
    var next := attempt + 1;
    if next >= maxAttempts {
      block := block + Release;
      return true, TimedOut, block;
    }
    block := block + [Sleep] + Release;
    done := false;
  }

  /** How often `x` occurs in `steps`. */
  function CountOf(steps: seq<LockStep>, x: LockStep): nat
  {
    if steps == [] then 0 else (if steps[0] == x then 1 else 0) + CountOf(steps[1..], x)
  }

  lemma {:induction false} CountConcat(a: seq<LockStep>, b: seq<LockStep>, x: LockStep)
    ensures CountOf(a + b, x) == CountOf(a, x) + CountOf(b, x)
  {
    if a != [] {
      assert (a + b)[1..] == a[1..] + b;
      CountConcat(a[1..], b, x);
    } else {
      assert a + b == b;
    }
  }

  /** The contents written to the target file, in order. */
  function Writes(steps: seq<LockStep>): seq<string>
  {
    if steps == [] then [] else (if steps[0].WriteFile? then [steps[0].content] else []) + Writes(steps[1..])
  }

  lemma {:induction false} WritesConcat(a: seq<LockStep>, b: seq<LockStep>)
    ensures Writes(a + b) == Writes(a) + Writes(b)
  {
    if a != [] {
      assert (a + b)[1..] == a[1..] + b;
      WritesConcat(a[1..], b);
    } else {
      assert a + b == b;
    }
  }

  lemma {:induction false} NoWrites(steps: seq<LockStep>)
    requires forall i :: 0 <= i < |steps| ==> !steps[i].WriteFile?
    ensures Writes(steps) == []
  {
    if steps != [] {
      NoWrites(steps[1..]);
    }
  }

  /** An attempt that fails writes nothing; one that succeeds writes the content once. */
  lemma AttemptWrites(content: string, last: bool)
    ensures Writes(FailedAttempt(last)) == []
    ensures Writes(WrittenAttempt(content)) == [content]
  {
    NoWrites(FailedAttempt(last));
    var tail := [WriteFile(content)] + Release;
    NoWrites([OpenLockFile, TryLock(true)]);
    NoWrites(Release);
    assert tail[1..] == Release;
    WritesConcat([OpenLockFile, TryLock(true)], tail);
    assert WrittenAttempt(content) == [OpenLockFile, TryLock(true)] + tail;
  }

  /** The run writes when some attempt gets the lock and raises when none does. */
  lemma {:induction false} AttemptsOutcome(content: string, maxAttempts: int, acquired: nat -> bool, k: nat)
    requires k < maxAttempts
    ensures var r := AttemptsFrom(content, maxAttempts, acquired, k);
            r.result != NoAttempt && (r.result == Written <==> exists j :: k <= j < maxAttempts && acquired(j))
    decreases maxAttempts - k
  {
    if !acquired(k) && k + 1 < maxAttempts {
      AttemptsOutcome(content, maxAttempts, acquired, k + 1);
    }
  }

  /** The content reaches the target file once on success and never otherwise. */
  lemma {:induction false} AttemptsWrites(content: string, maxAttempts: int, acquired: nat -> bool, k: nat)
    requires k < maxAttempts
    ensures var r := AttemptsFrom(content, maxAttempts, acquired, k);
            Writes(r.steps) == if r.result == Written then [content] else []
    decreases maxAttempts - k
  {
    if !acquired(k) && k + 1 < maxAttempts {
      var rest := AttemptsFrom(content, maxAttempts, acquired, k + 1);
      AttemptsWrites(content, maxAttempts, acquired, k + 1);
      WritesConcat(FailedAttempt(false), rest.steps);
      AttemptWrites(content, false);
    } else {
      AttemptWrites(content, true);
    }
  }

  lemma CountCons(a: LockStep, t: seq<LockStep>, x: LockStep)
    ensures CountOf([a] + t, x) == (if a == x then 1 else 0) + CountOf(t, x)
  {
    assert ([a] + t)[1..] == t;
  }

  lemma CountRelease(x: LockStep)
    ensures CountOf(Release, x) == if x in {Unlock, CloseLockFile, RemoveLockFile} then 1 else 0
  {
    CountCons(Unlock, [CloseLockFile, RemoveLockFile], x);
    CountCons(CloseLockFile, [RemoveLockFile], x);
    CountCons(RemoveLockFile, [], x);
  }

  /** Whether `x` is one of the operations every attempt performs exactly once. */
  predicate OncePerAttempt(x: LockStep)
  {
    x in {OpenLockFile, Unlock, CloseLockFile, RemoveLockFile}
  }

  lemma CountFailed(last: bool, x: LockStep)
    ensures OncePerAttempt(x) ==> CountOf(FailedAttempt(last), x) == 1
    ensures CountOf(FailedAttempt(last), Sleep) == if last then 0 else 1
  {
    var mid := (if last then [] else [Sleep]) + Release;
    assert FailedAttempt(last) == [OpenLockFile] + ([TryLock(false)] + mid);
    CountRelease(x);
    CountRelease(Sleep);
    if !last {
      CountCons(Sleep, Release, x);
      CountCons(Sleep, Release, Sleep);
    } else {
      assert mid == Release;
    }
    CountCons(TryLock(false), mid, x);
    CountCons(TryLock(false), mid, Sleep);
    CountCons(OpenLockFile, [TryLock(false)] + mid, x);
    CountCons(OpenLockFile, [TryLock(false)] + mid, Sleep);
  }

  lemma CountWritten(content: string, x: LockStep)
    ensures OncePerAttempt(x) ==> CountOf(WrittenAttempt(content), x) == 1
    ensures CountOf(WrittenAttempt(content), Sleep) == 0
  {
    var w := [WriteFile(content)] + Release;
    assert WrittenAttempt(content) == [OpenLockFile] + ([TryLock(true)] + w);
    CountRelease(x);
    CountRelease(Sleep);
    CountCons(WriteFile(content), Release, x);
    CountCons(WriteFile(content), Release, Sleep);
    CountCons(TryLock(true), w, x);
    CountCons(TryLock(true), w, Sleep);
    CountCons(OpenLockFile, [TryLock(true)] + w, x);
    CountCons(OpenLockFile, [TryLock(true)] + w, Sleep);
  }

  lemma {:induction false} AttemptsCounts(content: string, maxAttempts: int, acquired: nat -> bool, k: nat, x: LockStep)
    requires k < maxAttempts
    ensures var st := AttemptsFrom(content, maxAttempts, acquired, k).steps;
            1 <= CountOf(st, OpenLockFile) <= maxAttempts - k
            && CountOf(st, Sleep) + 1 == CountOf(st, OpenLockFile)
            && (OncePerAttempt(x) ==> CountOf(st, x) == CountOf(st, OpenLockFile))
    decreases maxAttempts - k
  {
    CountFailed(false, x);
    CountFailed(false, OpenLockFile);
    if acquired(k) {
      CountWritten(content, x);
      CountWritten(content, OpenLockFile);
    } else if k + 1 >= maxAttempts {
      CountFailed(true, x);
      CountFailed(true, OpenLockFile);
    } else {
      var rest := AttemptsFrom(content, maxAttempts, acquired, k + 1).steps;
      AttemptsCounts(content, maxAttempts, acquired, k + 1, x);
      CountConcat(FailedAttempt(false), rest, x);
      CountConcat(FailedAttempt(false), rest, OpenLockFile);
      CountConcat(FailedAttempt(false), rest, Sleep);
    }
  }

  /**
   * What `write_with_lock` promises about its outcome: no attempt when
   * `max_attempts` is not positive, a write exactly when some attempt gets
   * the lock, `TimeoutError` when none does, and the content written once
   * on success and never otherwise.
   */
  lemma LockRunOutcome(content: string, maxAttempts: int, acquired: nat -> bool)
    ensures var run := LockRunOf(content, maxAttempts, acquired);
            (run.result == NoAttempt <==> maxAttempts <= 0)
            && (maxAttempts <= 0 ==> run.steps == [])
            && (run.result == Written <==> exists j :: 0 <= j < maxAttempts && acquired(j))
            && Writes(run.steps) == if run.result == Written then [content] else []
  {
    if maxAttempts > 0 {
      AttemptsOutcome(content, maxAttempts, acquired, 0);
      AttemptsWrites(content, maxAttempts, acquired, 0);
    }
  }

  /**
   * What `write_with_lock` promises about the lock file: at most
   * `max_attempts` attempts, a sleep between consecutive attempts only, and
   * an unlock, a close and a removal of the lock file for every attempt,
   * including those that did not get the lock.
   */
  lemma LockRunBalanced(content: string, maxAttempts: int, acquired: nat -> bool, x: LockStep)
    requires maxAttempts > 0
    ensures var st := LockRunOf(content, maxAttempts, acquired).steps;
            1 <= CountOf(st, OpenLockFile) <= maxAttempts
            && CountOf(st, Sleep) == CountOf(st, OpenLockFile) - 1
            && (OncePerAttempt(x) ==> CountOf(st, x) == CountOf(st, OpenLockFile))
  {
    AttemptsCounts(content, maxAttempts, acquired, 0, x);
  }

  // ---------------------------------------------------------------------
  // LatexFileHandler: the file event gate, the guarded copy, the local update
  // ---------------------------------------------------------------------

  /** Seconds that must pass between two syncs unless the agent is streaming. */
  const Cooldown := 5

  /** The `max_attempts` that `update_local_file` leaves at its default. */
  const MaxLockAttempts := 5

  /** Whether a modification event leads to a sync. */
  predicate SyncGate(pushDisabled: bool, streaming: bool, sameFile: bool, now: int, lastModified: int)
  {
    !pushDisabled && sameFile && (now - lastModified > Cooldown || streaming)
  }

  /** How `update_local_file` ends. */
  datatype UpdateOutcome = Updated | RepoFileMissing | UpdateFailed

  /** `update_local_file` on the repository file `repo`; a lock time-out is caught and logged. */
  function UpdateOutcomeOf(repo: Option<string>, acquired: nat -> bool): UpdateOutcome
  {
    match repo
    case None => RepoFileMissing
    case Some(c) =>
      if c != [] && LockRunOf(c, MaxLockAttempts, acquired).result == TimedOut then UpdateFailed else Updated
  }

  /** The outcomes of the git commands of one remote check, decided outside the model. */
  datatype GitOutcomes = GitOutcomes(
    fetchOk: bool,
    /** The parsed output of `git rev-list HEAD..origin/master --count`; `None` when the command fails or prints no integer. */
    revCount: Option<int>,
    /** The output of `git status --porcelain`; `None` when the command fails. */
    status: Option<string>,
    stashOk: bool,
    pullOk: bool,
    /** The repository's copy of the watched file after the pull, if there is one. */
    pulledFile: Option<string>,
    popOk: bool)

  /** The steps of one remote check, in order. */
  datatype GitStep = Fetch | RevList | Status | Stash | Pull | StashPop | ReportConflict | UpdateLocal | ReportError | Wait

  /** `status --porcelain` reports uncommitted changes. */
  predicate Dirty(status: string)
  {
    Strip(status) != []
  }

  /** Popping the stash after the pull: only when something was stashed; a failure is reported and nothing more. */
  function PopSteps(stashed: bool, popOk: bool): seq<GitStep>
  {
    if !stashed then [] else if popOk then [StashPop] else [StashPop, ReportConflict]
  }

  /** The steps once the remote is known to be ahead. */
  function PullPlan(o: GitOutcomes): seq<GitStep>
  {
    if o.status.None? then [Status, ReportError]
    else
      var dirty := Dirty(o.status.value);
      var stash := if dirty then [Stash] else [];
      if dirty && !o.stashOk then [Status, Stash, ReportError]
      else if !o.pullOk then [Status] + stash + [Pull, ReportError]
      else [Status] + stash + [Pull] + PopSteps(dirty, o.popOk) + [UpdateLocal]
  }

  /** One pass of the remote checker's loop: nothing while the agent streams, else the checks, then the wait of `check_interval` seconds. */
  function CyclePlan(streaming: bool, o: GitOutcomes): seq<GitStep>
  {
    if streaming then []
    else if !o.fetchOk then [Fetch, ReportError, Wait]
    else if o.revCount.None? then [Fetch, RevList, ReportError, Wait]
    else if o.revCount.value <= 0 then [Fetch, RevList, Wait]
    else [Fetch, RevList] + PullPlan(o) + [Wait]
  }

  /** Status, the stash if one is needed, and the pull all succeed. */
  predicate PullPhaseSucceeds(o: GitOutcomes)
  {
    o.status.Some? && (!Dirty(o.status.value) || o.stashOk) && o.pullOk
  }

  /** The pass reaches a successful pull of the remote's commits. */
  predicate PullSucceeds(streaming: bool, o: GitOutcomes)
  {
    !streaming && o.fetchOk && o.revCount.Some? && o.revCount.value > 0 && PullPhaseSucceeds(o)
  }

  /** The watcher's handler for the watched file and its copy in the repository. */
  class LatexFileHandler {
    const filePath: string
    const env: Environ
    var lastModified: int
    /** The repository's copy of the file, if it has one. */
    var repoText: Option<string>
    /** The watched file as the handler last wrote it. */
    var localText: string

    constructor(filePath: string, env: Environ, now: int, repoText: Option<string>, localText: string)
      ensures this.filePath == filePath && this.env == env && lastModified == now
      ensures this.repoText == repoText && this.localText == localText
    {
      this.filePath := filePath;
      this.env := env;
      lastModified := now;
      this.repoText := repoText;
      this.localText := localText;
    }

    /** Whether an event for `eventPath` at `now` leads to a sync. */
    predicate Fires(eventPath: string, now: int)
      reads this, env
    {
      SyncGate(env.IsTrue(GitPushDisabled), env.IsTrue(AgentStreaming), eventPath == filePath, now, lastModified)
    }

    /** `on_modified`: the event gate, then the sync with the file's current text. */
    method OnModified(eventPath: string, now: int, fileText: string) returns (synced: bool)
      modifies this
      ensures synced == old(Fires(eventPath, now))
      ensures lastModified == if synced then now else old(lastModified)
      ensures repoText == if synced && fileText != [] then Some(fileText) else old(repoText)
      ensures localText == old(localText)
    {
      if env.IsTrue(GitPushDisabled) {
        return false;
      }
      synced := false;
      if eventPath == filePath {
        if now - lastModified > Cooldown || env.IsTrue(AgentStreaming) {
          lastModified := now;
          SyncWithOverleaf(fileText);
          synced := true;
        }
      }
    }

    /** The copy at the start of `sync_with_overleaf`: empty text is not copied. */
    method SyncWithOverleaf(content: string)
      modifies this
      ensures repoText == if content == [] then old(repoText) else Some(content)
      ensures lastModified == old(lastModified) && localText == old(localText)
    {
      if content == [] {
        return;
      }
      repoText := Some(content);
    }

    /**
     * `update_local_file`: copy the repository's file into the watched file
     * under the lock when it has text, and set `LATEX_PULLED` unless the lock
     * timed out.
     */
    method UpdateLocalFile(acquired: nat -> bool) returns (outcome: UpdateOutcome, steps: seq<LockStep>)
      modifies this, env
      ensures outcome == UpdateOutcomeOf(old(repoText), acquired)
      ensures steps == if repoText.Some? && repoText.value != [] then LockRunOf(repoText.value, MaxLockAttempts, acquired).steps else []
      ensures localText == if repoText.Some? && outcome == Updated && repoText.value != [] then repoText.value else old(localText)
      ensures env.vars == if outcome == Updated then old(env.vars)[LatexPulled := "True"] else old(env.vars)
      ensures repoText == old(repoText) && lastModified == old(lastModified)
    {
      steps := [];
      if repoText.None? {
        return RepoFileMissing, steps;
      }
      var content := repoText.value;
      if content != [] {
        var r;
        r, steps := WriteWithLock(content, MaxLockAttempts, acquired);
        if r == TimedOut {
          return UpdateFailed, steps;
        }
        localText := content;
      }
      env.Set(LatexPulled, "True");
      outcome := Updated;
    }

    /** One pass of `remote_checker`'s loop; an exception ends the pass with a report, then the wait. */
    method RemoteCycle(o: GitOutcomes, acquired: nat -> bool) returns (steps: seq<GitStep>)
      modifies this, env
      ensures steps == CyclePlan(old(env.IsTrue(AgentStreaming)), o)
      ensures var pulled := PullSucceeds(old(env.IsTrue(AgentStreaming)), o);
              var update := UpdateOutcomeOf(o.pulledFile, acquired);
              repoText == (if pulled then o.pulledFile else old(repoText))
              && localText == (if pulled && o.pulledFile.Some? && update == Updated && o.pulledFile.value != []
                               then o.pulledFile.value else old(localText))
              && env.vars == (if pulled && update == Updated then old(env.vars)[LatexPulled := "True"] else old(env.vars))
      ensures lastModified == old(lastModified)
    {
      if env.IsTrue(AgentStreaming) {
        return [];
      }
      steps := CheckRemote(o, acquired);
    }

    /** The pass while the agent does not stream: the fetch, `rev-list`, and the pull phase when the remote is ahead. */
    method CheckRemote(o: GitOutcomes, acquired: nat -> bool) returns (steps: seq<GitStep>)
      modifies this, env
      ensures steps == CyclePlan(false, o)
      ensures var pulled := PullSucceeds(false, o);
              var update := UpdateOutcomeOf(o.pulledFile, acquired);
              repoText == (if pulled then o.pulledFile else old(repoText))
              && localText == (if pulled && o.pulledFile.Some? && update == Updated && o.pulledFile.value != []
                               then o.pulledFile.value else old(localText))
              && env.vars == (if pulled && update == Updated then old(env.vars)[LatexPulled := "True"] else old(env.vars))
      ensures lastModified == old(lastModified)
    {
      if !o.fetchOk {
        return [Fetch, ReportError, Wait];
      }
      if o.revCount.None? {
        return [Fetch, RevList, ReportError, Wait];
      }
      if o.revCount.value <= 0 {
        return [Fetch, RevList, Wait];
      }
      var part := PullPhase(o, acquired);
      steps := [Fetch, RevList] + part + [Wait];
    }

    /** The part of the pass that runs when the remote is ahead: status, stash, pull, pop, update. */
    method PullPhase(o: GitOutcomes, acquired: nat -> bool) returns (part: seq<GitStep>)
      modifies this, env
      ensures part == PullPlan(o)
      ensures var pulled := PullPhaseSucceeds(o);
              var update := UpdateOutcomeOf(o.pulledFile, acquired);
              repoText == (if pulled then o.pulledFile else old(repoText))
              && localText == (if pulled && o.pulledFile.Some? && update == Updated && o.pulledFile.value != []
                               then o.pulledFile.value else old(localText))
              && env.vars == (if pulled && update == Updated then old(env.vars)[LatexPulled := "True"] else old(env.vars))
      ensures lastModified == old(lastModified)
    {
      part := [Status];
      if o.status.None? {
        return part + [ReportError];
      }
      var hadLocalChanges := false;
      if Dirty(o.status.value) {
        part := part + [Stash];
        if !o.stashOk {
          return part + [ReportError];
        }
        hadLocalChanges := true;
      }
      part := part + [Pull];
      if !o.pullOk {
        return part + [ReportError];
      }
      repoText := o.pulledFile;
      if hadLocalChanges {
        part := part + [StashPop];
        if !o.popOk {
          part := part + [ReportConflict];
        }
      }
      var _, _ := UpdateLocalFile(acquired);
      part := part + [UpdateLocal];
    }
  }

  /** The gate: a disabled push or another file never syncs; streaming always does; otherwise the cooldown decides. */
  lemma SyncGateCases(pushDisabled: bool, streaming: bool, sameFile: bool, now: int, lastModified: int)
    ensures pushDisabled || !sameFile ==> !SyncGate(pushDisabled, streaming, sameFile, now, lastModified)
    ensures !pushDisabled && sameFile && streaming ==> SyncGate(pushDisabled, streaming, sameFile, now, lastModified)
    ensures !streaming ==> (SyncGate(pushDisabled, streaming, sameFile, now, lastModified)
                            <==> !pushDisabled && sameFile && now > lastModified + Cooldown)
  {
  }

  /** Without streaming, a second event within the cooldown after a sync does not sync again. */
  lemma CooldownSuppresses(first: int, second: int, lastModified: int)
    requires SyncGate(false, false, true, first, lastModified)
    requires first <= second <= first + Cooldown
    ensures !SyncGate(false, false, true, second, first)
  {
  }

  /** `update_local_file` sets `LATEX_PULLED` exactly when the repository file exists and, if it has text, some attempt got the lock. */
  lemma UpdateOutcomeIff(repo: Option<string>, acquired: nat -> bool)
    ensures UpdateOutcomeOf(repo, acquired) == Updated
        <==> repo.Some? && (repo.value == [] || exists j :: 0 <= j < MaxLockAttempts && acquired(j))
    ensures UpdateOutcomeOf(repo, acquired) == UpdateFailed
        <==> repo.Some? && repo.value != [] && forall j :: 0 <= j < MaxLockAttempts ==> !acquired(j)
  {
    if repo.Some? && repo.value != [] {
      LockRunOutcome(repo.value, MaxLockAttempts, acquired);
    }
  }

  // What one remote check does, in terms of its steps

  /** While the agent streams, the pass does nothing, not even the wait. */
  lemma CycleSkippedWhileStreaming(o: GitOutcomes)
    ensures CyclePlan(true, o) == []
  {
  }

  /** Otherwise the pass starts with the fetch, runs `rev-list` right after a successful fetch only, and ends with the wait. */
  lemma CycleFetchFirst(o: GitOutcomes)
    ensures var p := CyclePlan(false, o);
            |p| >= 3 && p[0] == Fetch && p[|p| - 1] == Wait
            && (RevList in p <==> o.fetchOk) && (o.fetchOk ==> p[1] == RevList)
  {
    var p := CyclePlan(false, o);
    if o.fetchOk && o.revCount.Some? && o.revCount.value > 0 {
      var q := PullPlan(o);
      assert p == [Fetch, RevList] + q + [Wait];
      assert RevList !in q;
    }
  }

  /** Status, stash, pull, pop and the local update only happen when the remote is ahead. */
  lemma CyclePullsOnlyWhenBehind(streaming: bool, o: GitOutcomes, s: GitStep)
    requires s in {Status, Stash, Pull, StashPop, UpdateLocal}
    ensures s in CyclePlan(streaming, o) ==> !streaming && o.fetchOk && o.revCount.Some? && o.revCount.value > 0
  {
  }

  /** The stash happens exactly when the remote is ahead and `status --porcelain` reports changes. */
  lemma CycleStashIff(streaming: bool, o: GitOutcomes)
    ensures Stash in CyclePlan(streaming, o)
        <==> !streaming && o.fetchOk && o.revCount.Some? && o.revCount.value > 0
             && o.status.Some? && Dirty(o.status.value)
  {
    if !streaming && o.fetchOk && o.revCount.Some? && o.revCount.value > 0 {
      assert CyclePlan(streaming, o) == [Fetch, RevList] + PullPlan(o) + [Wait];
    }
  }

  /** The stash is popped exactly when something was stashed and the pull then succeeded, and right after the pull. */
  lemma CyclePopIff(streaming: bool, o: GitOutcomes)
    ensures var p := CyclePlan(streaming, o);
            (StashPop in p <==> Stash in p && o.stashOk && o.pullOk)
            && (StashPop in p ==> exists i :: 0 <= i < |p| - 1 && p[i] == Pull && p[i + 1] == StashPop)
  {
    var p := CyclePlan(streaming, o);
    CycleStashIff(streaming, o);
    if !streaming && o.fetchOk && o.revCount.Some? && o.revCount.value > 0 {
      var q := PullPlan(o);
      PullPlanPop(o);
      assert p == [Fetch, RevList] + q + [Wait];
      if StashPop in q {
        assert p[4] == q[2] && p[5] == q[3];
      }
    }
  }

  /** Within the steps after the fetch: the pop follows the pull exactly when the stash and the pull succeeded. */
  lemma PullPlanPop(o: GitOutcomes)
    ensures var q := PullPlan(o);
            (StashPop in q <==> Stash in q && o.stashOk && o.pullOk)
            && (StashPop in q ==> |q| > 3 && q[2] == Pull && q[3] == StashPop)
  {
    var q := PullPlan(o);
    if o.status.Some? && o.pullOk && (!Dirty(o.status.value) || o.stashOk) {
      var dirty := Dirty(o.status.value);
      var stash := if dirty then [Stash] else [];
      assert q == [Status] + stash + [Pull] + PopSteps(dirty, o.popOk) + [UpdateLocal];
    }
  }

  /** The local update runs exactly when the pull succeeded; a failed pop is reported and the update still runs. */
  lemma CycleUpdateIff(streaming: bool, o: GitOutcomes)
    ensures var p := CyclePlan(streaming, o);
            (UpdateLocal in p <==> PullSucceeds(streaming, o))
            && (ReportConflict in p ==> UpdateLocal in p && StashPop in p)
  {
    var p := CyclePlan(streaming, o);
    if !streaming && o.fetchOk && o.revCount.Some? && o.revCount.value > 0 {
      assert p == [Fetch, RevList] + PullPlan(o) + [Wait];
    }
  }
}
