/**
 * The agent of `LatexColabAgent.py`: the file-event gate of its handler,
 * the decision whether a tracked change starts a run, and the run itself,
 * which rewrites the prompt's status marker from `start` to
 * `Reasoning_<ts>` and then `completed_<ts>`, pushing to git after each
 * marker, with the streaming flag set for the whole run. A run stops with
 * the flag still set when the path of `index.lock` cannot be built (the
 * repository path is `None` or a `str`) or when a push raises; a push
 * leaves the process inside the repository, so a relative repository path
 * makes the second one miss its directory. The change tracker, the
 * language model and git are abstract: the tracker's differences, the
 * timestamps and the outcome of the git commands are inputs, the file
 * system is the set of directories and files that exist, and what the run
 * does is recorded as a sequence of steps.
 */
module ColabAgent {
  import opened Text
  import opened OsEnviron
  import LlmModels
  import GitSync

  /** Seconds between two triggers from ordinary file events. */
  const Cooldown := 2

  /** The model a prompt names when its parameters name none. */
  const DefaultModel := "claude-3.7-sonnet:thinking"

  /** One environment the tracker reports as changed; its parameters in their order, keys distinct as in a dict. */
  datatype EnvDiff = EnvDiff(envType: string, text: string, params: seq<(string, string)>)

  /** `params.get(key)`. */
  function Lookup(ps: seq<(string, string)>, key: string): Option<string>
  {
    if ps == [] then None else if ps[0].0 == key then Some(ps[0].1) else Lookup(ps[1..], key)
  }

  /** `params[key] = value`: an existing key keeps its place, a new one goes last. */
  function SetParam(ps: seq<(string, string)>, key: string, value: string): seq<(string, string)>
  {
    if ps == [] then [(key, value)]
    else if ps[0].0 == key then [(key, value)] + ps[1..]
    else [ps[0]] + SetParam(ps[1..], key, value)
  }

  function Keys(ps: seq<(string, string)>): seq<string>
  {
    if ps == [] then [] else [ps[0].0] + Keys(ps[1..])
  }

  /** `', '.join(f"{key}={value}" ...)`. */
  function ParamsLine(ps: seq<(string, string)>): string
  {
    Join(", ", seq(|ps|, i requires 0 <= i < |ps| => ps[i].0 + "=" + ps[i].1))
  }

  /** The environment's text with its rebuilt parameter line. */
  function MarkerText(text: string, ps: seq<(string, string)>): string
  {
    text + "\n%parameters: " + ParamsLine(ps)
  }

  /**
   * `status in ["start"]`, where `status` is `True` when the start is not
   * conditioned (and `True` is never in the list) and the status parameter,
   * or `False` when there is none, otherwise.
   */
  predicate StatusStarts(conditionedStart: bool, ps: seq<(string, string)>)
  {
    conditionedStart && Lookup(ps, "status") == Some("start")
  }

  /** The first difference starts a run: a `user` environment with text and the status `start`, compared exactly. */
  predicate StartsRun(conditionedStart: bool, d: EnvDiff)
  {
    d.envType == "user" && d.text != [] && StatusStarts(conditionedStart, d.params)
  }

  /** `name_hint` of the model the prompt names; `None` is its IndexError. */
  function PromptModel(d: EnvDiff): Option<string>
  {
    var named := Lookup(d.params, "model");
    LlmModels.NameHint(if named.Some? then named.value else DefaultModel)
  }

  /**
   * `git_repo_path`: `None` (the default), a `str` or a `pathlib.Path`, the
   * kinds its annotation allows, each with its text (a `Path` in its
   * normalised form, `Path('./overleaf_repo')` being `overleaf_repo`).
   */
  datatype RepoPath = NoRepo | StrPath(s: string) | PathObject(p: string)

  /** `git_repo_path` is true: a non-empty `str`, or any `Path`, which defines no length and so is always true. */
  predicate HasRepo(repo: RepoPath)
  {
    (repo.StrPath? && repo.s != []) || repo.PathObject?
  }

  /** `git_repo_path / ".git/index.lock"` is defined for a `Path` only: `None / str` and `str / str` raise TypeError. */
  predicate LockPathDefined(repo: RepoPath)
  {
    repo.PathObject?
  }

  /** The repository path's text, as `os.path.join` and `os.chdir` see it. */
  function RepoText(repo: RepoPath): string
  {
    match repo
    case NoRepo => ""
    case StrPath(s) => s
    case PathObject(p) => p
  }

  predicate IsAbsolute(p: string)
  {
    |p| > 0 && p[0] == '/'
  }

  /**
   * `posixpath.join(a, b)`; the operating system resolves a path `p` from
   * the working directory `cwd` as `PathJoin(cwd, p)`.
   */
  function PathJoin(a: string, b: string): string
  {
    if IsAbsolute(b) then b
    else if a == [] || a[|a| - 1] == '/' then a + b
    else a + "/" + b
  }

  /** `os.path.basename`: the text after the last `/`. */
  function BaseName(p: string): string
  {
    if p == [] || p[|p| - 1] == '/' then [] else BaseName(p[..|p| - 1]) + [p[|p| - 1]]
  }

  /** The directories and the files that exist, each spelled from the root. */
  datatype FileSys = FileSys(dirs: set<string>, files: set<string>)

  /** Why a run stopped early: a file operation raised FileNotFoundError, or the `index.lock` path raised TypeError. */
  datatype AgentError = NoSuchFile(path: string) | IndexLockTypeError

  /** What the agent does, in order. */
  datatype AgentStep =
    | SetStreaming(on: bool)
    | SaveMarker(text: string)
    | SetPushDisabled(on: bool)
    | CopyToRepo
    | GitCommands(ok: bool)
    | StreamReasoning
    | StreamAnswer

  /** The steps of one push, how it ended, and the working directory and file system it leaves. */
  datatype PushResult = PushResult(steps: seq<AgentStep>, error: Option<AgentError>, cwd: string, fs: FileSys)

  /**
   * `git_push` from the working directory `cwd`: nothing when the path is
   * false. Otherwise pushes are disabled, the LaTeX file is read and copied
   * to `join(repo, basename(latexfile))`, both paths taken from `cwd`, the
   * process enters the repository and the git commands run, a failure
   * being only logged. The copy's directory is the one `chdir` enters, so
   * one existence test decides both; a missing file or directory raises
   * FileNotFoundError with pushes still disabled. `original_dir` is read
   * after the `chdir`, so the process stays in the repository.
   */
  function GitPushOf(repo: RepoPath, latex: string, cwd: string, fs: FileSys, ok: bool): PushResult
  {
    if !HasRepo(repo) then PushResult([], None, cwd, fs)
    else
      var src := PathJoin(cwd, latex);
      var dir := PathJoin(cwd, RepoText(repo));
      var dest := PathJoin(cwd, PathJoin(RepoText(repo), BaseName(latex)));
      if src !in fs.files then PushResult([SetPushDisabled(true)], Some(NoSuchFile(src)), cwd, fs)
      else if dir !in fs.dirs then PushResult([SetPushDisabled(true)], Some(NoSuchFile(dest)), cwd, fs)
      else PushResult([SetPushDisabled(true), CopyToRepo, GitCommands(ok), SetPushDisabled(false)],
                      None, dir, fs.(files := fs.files + {dest}))
  }

  /** `git_push` with `original_dir = os.getcwd()` taken before the `chdir`: the process returns to where it was. */
  function FixedGitPushOf(repo: RepoPath, latex: string, cwd: string, fs: FileSys, ok: bool): PushResult
  {
    GitPushOf(repo, latex, cwd, fs, ok).(cwd := cwd)
  }

  /** The steps of a run, how it ended, and the working directory and file system it leaves. */
  datatype RunEnd = RunEnd(steps: seq<AgentStep>, error: Option<AgentError>, cwd: string, fs: FileSys)

  /**
   * The end of a run as written, after the completed marker: the
   * `index.lock` path, which raises unless the repository is a `Path`; a
   * second push from wherever the first left the process; streaming off.
   */
  function FinishOf(repo: RepoPath, latex: string, cwd: string, fs: FileSys, ok2: bool): RunEnd
  {
    if !LockPathDefined(repo) then RunEnd([], Some(IndexLockTypeError), cwd, fs)
    else
      var p2 := GitPushOf(repo, latex, cwd, fs, ok2);
      RunEnd(p2.steps + (if p2.error.None? then [SetStreaming(false)] else []), p2.error, p2.cwd, p2.fs)
  }

  /**
   * A run as written: streaming on, the Reasoning marker and a push; the
   * streamed blocks and the completed marker; then its end. An exception
   * ends the run where it is raised.
   */
  function RunOf(repo: RepoPath, latex: string, cwd: string, fs: FileSys,
                 reasoning: string, completed: string, ok1: bool, ok2: bool): RunEnd
  {
    var head: seq<AgentStep> := [SetStreaming(true), SaveMarker(reasoning)];
    var p1 := GitPushOf(repo, latex, cwd, fs, ok1);
    if p1.error.Some? then RunEnd(head + p1.steps, p1.error, p1.cwd, p1.fs)
    else
      var mid := head + p1.steps + [StreamReasoning, StreamAnswer, SaveMarker(completed)];
      var f := FinishOf(repo, latex, p1.cwd, p1.fs, ok2);
      RunEnd(mid + f.steps, f.error, f.cwd, f.fs)
  }

  /**
   * A run with both corrections: the lock removal guarded by
   * `if self.git_repo_path:` with its path built as
   * `Path(self.git_repo_path) / ".git/index.lock"`, and each push returning
   * to the directory it started from.
   */
  function FixedRunOf(repo: RepoPath, latex: string, cwd: string, fs: FileSys,
                      reasoning: string, completed: string, ok1: bool, ok2: bool): RunEnd
  {
    var head: seq<AgentStep> := [SetStreaming(true), SaveMarker(reasoning)];
    var p1 := FixedGitPushOf(repo, latex, cwd, fs, ok1);
    if p1.error.Some? then RunEnd(head + p1.steps, p1.error, p1.cwd, p1.fs)
    else
      var mid := head + p1.steps + [StreamReasoning, StreamAnswer, SaveMarker(completed)];
      var p2 := FixedGitPushOf(repo, latex, p1.cwd, p1.fs, ok2);
      if p2.error.Some? then RunEnd(mid + p2.steps, p2.error, p2.cwd, p2.fs)
      else RunEnd(mid + p2.steps + [SetStreaming(false)], None, p2.cwd, p2.fs)
  }

  /**
   * The environment after a run that ended with `error`: the streaming
   * variable is cleared only by a run that finished, and a push that raised
   * leaves `GIT_PUSH_DISABLED` at `'True'`.
   */
  function AfterRun(repo: RepoPath, vars: map<string, string>, error: Option<AgentError>): map<string, string>
  {
    var streamingFlag := if error.None? then "False" else "True";
    if !HasRepo(repo) then vars[AgentStreaming := streamingFlag]
    else vars[AgentStreaming := streamingFlag][GitPushDisabled := if error.Some? && error.value.NoSuchFile? then "True" else "False"]
  }

  /** Writing the push flag twice keeps the second value, and the two flags can be written in either order. */
  lemma FlagsSettle(v: map<string, string>, s1: string, p1: string, p2: string, s2: string)
    ensures v[AgentStreaming := s1][GitPushDisabled := p1][GitPushDisabled := p2] == v[AgentStreaming := s1][GitPushDisabled := p2]
    ensures v[AgentStreaming := s1][GitPushDisabled := p1][GitPushDisabled := p2][AgentStreaming := s2]
            == v[AgentStreaming := s2][GitPushDisabled := p2]
  {
    assert |AgentStreaming| != |GitPushDisabled|;
  }

  /**
   * How `trigger` ends: no difference, an unknown model (IndexError), a
   * prompt that does not start a run, a finished run, or a run that raised.
   */
  datatype TriggerOutcome =
    | NoDifference
    | ModelUnknown
    | NotStarted
    | Ran(reasoning: string, completed: string)
    | Raised(reasoning: string, completed: string, error: AgentError)

  /** The parameters after the first and after the second status rewrite. */
  function ReasoningParams(d: EnvDiff, ts1: string): seq<(string, string)>
  {
    SetParam(d.params, "status", "Reasoning_" + ts1)
  }

  function CompletedParams(d: EnvDiff, ts1: string, ts2: string): seq<(string, string)>
  {
    SetParam(ReasoningParams(d, ts1), "status", "completed_" + ts2)
  }

  /** What `trigger` decides for the repository, the LaTeX file, the file system, the tracker's differences, the timestamps and the git outcomes. */
  function TriggerOutcomeOf(repo: RepoPath, latex: string, cwd: string, fs: FileSys, conditionedStart: bool,
                            diffs: seq<EnvDiff>, ts1: string, ts2: string, ok1: bool, ok2: bool): TriggerOutcome
  {
    if diffs == [] then NoDifference
    else if PromptModel(diffs[0]).None? then ModelUnknown
    else if !StartsRun(conditionedStart, diffs[0]) then NotStarted
    else
      var r := MarkerText(diffs[0].text, ReasoningParams(diffs[0], ts1));
      var c := MarkerText(diffs[0].text, CompletedParams(diffs[0], ts1, ts2));
      var e := RunOf(repo, latex, cwd, fs, r, c, ok1, ok2).error;
      if e.None? then Ran(r, c) else Raised(r, c, e.value)
  }

  /** Setting a key makes it read back, and leaves every other key's value alone. */
  lemma {:induction false} SetParamLookup(ps: seq<(string, string)>, key: string, value: string, other: string)
    ensures Lookup(SetParam(ps, key, value), key) == Some(value)
    ensures other != key ==> Lookup(SetParam(ps, key, value), other) == Lookup(ps, other)
  {
    if ps != [] && ps[0].0 != key {
      SetParamLookup(ps[1..], key, value, other);
    }
  }

  /** Setting a key that is present keeps the keys and their order; a new key goes last. */
  lemma {:induction false} SetParamKeys(ps: seq<(string, string)>, key: string, value: string)
    ensures Keys(SetParam(ps, key, value)) == if Lookup(ps, key).Some? then Keys(ps) else Keys(ps) + [key]
  {
    if ps != [] && ps[0].0 != key {
      SetParamKeys(ps[1..], key, value);
    }
  }

  /**
   * A run moves the status from `start` to `Reasoning_<ts1>` and then to
   * `completed_<ts2>`, touching no other parameter and keeping the
   * parameters' order, so the saved prompt no longer starts a run.
   */
  lemma StatusTransitions(conditionedStart: bool, d: EnvDiff, ts1: string, ts2: string, other: string)
    requires StartsRun(conditionedStart, d)
    ensures Lookup(ReasoningParams(d, ts1), "status") == Some("Reasoning_" + ts1)
    ensures Lookup(CompletedParams(d, ts1, ts2), "status") == Some("completed_" + ts2)
    ensures other != "status" ==> Lookup(CompletedParams(d, ts1, ts2), other) == Lookup(d.params, other)
    ensures Keys(CompletedParams(d, ts1, ts2)) == Keys(d.params)
    ensures !StatusStarts(conditionedStart, CompletedParams(d, ts1, ts2))
  {
    SetParamLookup(d.params, "status", "Reasoning_" + ts1, other);
    SetParamLookup(ReasoningParams(d, ts1), "status", "completed_" + ts2, other);
    SetParamKeys(d.params, "status", "Reasoning_" + ts1);
    SetParamKeys(ReasoningParams(d, ts1), "status", "completed_" + ts2);
    assert ("completed_" + ts2)[0] == 'c';
  }

  /** Without a conditioned start the status reads `True`, which is never `start`: no run ever begins. */
  lemma UnconditionedNeverRuns(repo: RepoPath, latex: string, cwd: string, fs: FileSys,
                               diffs: seq<EnvDiff>, ts1: string, ts2: string, ok1: bool, ok2: bool)
    ensures var t := TriggerOutcomeOf(repo, latex, cwd, fs, false, diffs, ts1, ts2, ok1, ok2); !t.Ran? && !t.Raised?
  {
  }

  /** Joining onto an absolute path gives an absolute path, and an absolute path ignores what it is joined onto. */
  lemma PathJoinAbsolute(a: string, b: string)
    ensures IsAbsolute(b) ==> PathJoin(a, b) == b
    ensures IsAbsolute(a) ==> IsAbsolute(PathJoin(a, b))
  {
  }

  /**
   * A push that does not raise leaves the process in the repository as
   * the starting directory saw it; the corrected push leaves it where it
   * started. Both raise exactly when the LaTeX file or the repository
   * directory is missing as seen from the starting directory.
   */
  lemma GitPushDirectory(repo: RepoPath, latex: string, cwd: string, fs: FileSys, ok: bool)
    ensures var r := GitPushOf(repo, latex, cwd, fs, ok);
            r.error.Some? <==> HasRepo(repo) && (PathJoin(cwd, latex) !in fs.files || PathJoin(cwd, RepoText(repo)) !in fs.dirs)
    ensures var r := GitPushOf(repo, latex, cwd, fs, ok);
            r.cwd == if HasRepo(repo) && r.error.None? then PathJoin(cwd, RepoText(repo)) else cwd
    ensures FixedGitPushOf(repo, latex, cwd, fs, ok).cwd == cwd
    ensures GitPushOf(repo, latex, cwd, fs, ok).fs.dirs == fs.dirs && fs.files <= GitPushOf(repo, latex, cwd, fs, ok).fs.files
  {
  }

  /** No step of a push touches the streaming flag. */
  lemma PushLeavesStreaming(repo: RepoPath, latex: string, cwd: string, fs: FileSys, ok: bool)
    ensures var s := GitPushOf(repo, latex, cwd, fs, ok).steps; forall i :: 0 <= i < |s| ==> !s[i].SetStreaming?
  {
  }

  /**
   * A run as written starts the stream first and touches the flag nowhere
   * in between; it ends the stream, as its last step, exactly when it did
   * not raise.
   */
  lemma RunStreamsThroughout(repo: RepoPath, latex: string, cwd: string, fs: FileSys,
                             reasoning: string, completed: string, ok1: bool, ok2: bool)
    ensures var e := RunOf(repo, latex, cwd, fs, reasoning, completed, ok1, ok2); var t := e.steps;
      t[0] == SetStreaming(true)
      && (t[|t| - 1] == SetStreaming(false) <==> e.error.None?)
      && forall i :: 0 < i < |t| - 1 ==> !t[i].SetStreaming?
  {
    var p1 := GitPushOf(repo, latex, cwd, fs, ok1);
    PushLeavesStreaming(repo, latex, cwd, fs, ok1);
    if p1.error.None? {
      PushLeavesStreaming(repo, latex, p1.cwd, p1.fs, ok2);
    }
  }

  /** The corrected run keeps the same shape: the stream ends, as the last step, exactly when nothing raised. */
  lemma FixedRunStreamsThroughout(repo: RepoPath, latex: string, cwd: string, fs: FileSys,
                                  reasoning: string, completed: string, ok1: bool, ok2: bool)
    ensures var e := FixedRunOf(repo, latex, cwd, fs, reasoning, completed, ok1, ok2); var t := e.steps;
      t[0] == SetStreaming(true)
      && (t[|t| - 1] == SetStreaming(false) <==> e.error.None?)
      && forall i :: 0 < i < |t| - 1 ==> !t[i].SetStreaming?
  {
    var p1 := FixedGitPushOf(repo, latex, cwd, fs, ok1);
    PushLeavesStreaming(repo, latex, cwd, fs, ok1);
    if p1.error.None? {
      PushLeavesStreaming(repo, latex, p1.cwd, p1.fs, ok2);
    }
  }

  /**
   * The corrected run finishes whenever the LaTeX file and the repository
   * exist as seen from where it starts: it pushes twice with a repository
   * and never without one, ends the stream and leaves the process where it
   * was, whatever the kind of the path and whether it is relative.
   */
  lemma FixedRunCompletes(repo: RepoPath, latex: string, cwd: string, fs: FileSys,
                          reasoning: string, completed: string, ok1: bool, ok2: bool)
    requires HasRepo(repo) ==> PathJoin(cwd, latex) in fs.files && PathJoin(cwd, RepoText(repo)) in fs.dirs
    ensures var e := FixedRunOf(repo, latex, cwd, fs, reasoning, completed, ok1, ok2);
            e.error.None? && e.cwd == cwd && e.steps[|e.steps| - 1] == SetStreaming(false)
            && GitCommandCount(e.steps) == if HasRepo(repo) then 2 else 0
  {
    var p1 := FixedGitPushOf(repo, latex, cwd, fs, ok1);
    GitPushDirectory(repo, latex, cwd, fs, ok1);
    GitPushDirectory(repo, latex, cwd, p1.fs, ok2);
    var p2 := FixedGitPushOf(repo, latex, cwd, p1.fs, ok2);
    var head: seq<AgentStep> := [SetStreaming(true), SaveMarker(reasoning)];
    var m: seq<AgentStep> := [StreamReasoning, StreamAnswer, SaveMarker(completed)];
    var z: seq<AgentStep> := [SetStreaming(false)];
    PushCount(repo, latex, cwd, fs, ok1);
    PushCount(repo, latex, cwd, p1.fs, ok2);
    GitCommandCountConcat(head, p1.steps);
    GitCommandCountConcat(head + p1.steps, m);
    GitCommandCountConcat(head + p1.steps + m, p2.steps);
    GitCommandCountConcat(head + p1.steps + m + p2.steps, z);
    NoGitCommands(head);
    NoGitCommands(m);
    NoGitCommands(z);
  }

  /**
   * With absolute paths for the repository and the LaTeX file the working
   * directory does not matter, and for a `Path` repository the run as
   * written takes the same steps and ends the same way as the corrected one.
   */
  lemma FixAgreesOnAbsolutePaths(p: string, latex: string, cwd: string, fs: FileSys,
                                 reasoning: string, completed: string, ok1: bool, ok2: bool)
    requires IsAbsolute(p) && IsAbsolute(latex)
    ensures var e, f := RunOf(PathObject(p), latex, cwd, fs, reasoning, completed, ok1, ok2),
                        FixedRunOf(PathObject(p), latex, cwd, fs, reasoning, completed, ok1, ok2);
            e.steps == f.steps && e.error == f.error && e.fs == f.fs
  {
    var repo := PathObject(p);
    var p1 := GitPushOf(repo, latex, cwd, fs, ok1);
    PathJoinAbsolute(cwd, latex);
    PathJoinAbsolute(cwd, p);
    PathJoinAbsolute(p, BaseName(latex));
    PathJoinAbsolute(cwd, PathJoin(p, BaseName(latex)));
    PathJoinAbsolute(p1.cwd, latex);
    PathJoinAbsolute(p1.cwd, p);
    PathJoinAbsolute(p1.cwd, PathJoin(p, BaseName(latex)));
    assert GitPushOf(repo, latex, p1.cwd, p1.fs, ok2).steps == GitPushOf(repo, latex, cwd, p1.fs, ok2).steps;
  }

  /** Each git command in `t` runs with pushes disabled: the flag is set two steps before, the copy is right before, and the flag is cleared right after. */
  ghost predicate PushesGuarded(t: seq<AgentStep>)
  {
    forall i :: 0 <= i < |t| && t[i].GitCommands? ==>
      2 <= i < |t| - 1 && t[i - 2] == SetPushDisabled(true) && t[i - 1] == CopyToRepo && t[i + 1] == SetPushDisabled(false)
  }

  lemma PushesGuardedConcat(a: seq<AgentStep>, b: seq<AgentStep>)
    requires PushesGuarded(a) && PushesGuarded(b)
    ensures PushesGuarded(a + b)
  {
    var t := a + b;
    forall i | 0 <= i < |t| && t[i].GitCommands?
      ensures 2 <= i < |t| - 1 && t[i - 2] == SetPushDisabled(true) && t[i - 1] == CopyToRepo && t[i + 1] == SetPushDisabled(false)
    {
      if i < |a| {
        assert a[i].GitCommands?;
      } else {
        assert b[i - |a|].GitCommands?;
      }
    }
  }

  /** In `git_push` the git commands run only while `GIT_PUSH_DISABLED` is `'True'`, right after the copy. */
  lemma PushTraceGuarded(repo: RepoPath, latex: string, cwd: string, fs: FileSys, ok: bool)
    ensures PushesGuarded(GitPushOf(repo, latex, cwd, fs, ok).steps)
  {
  }

  /** Every git command of a run, up to wherever it stops, runs with pushes disabled for the watcher. */
  lemma RunGitCommandsGuarded(repo: RepoPath, latex: string, cwd: string, fs: FileSys,
                              reasoning: string, completed: string, ok1: bool, ok2: bool)
    ensures PushesGuarded(RunOf(repo, latex, cwd, fs, reasoning, completed, ok1, ok2).steps)
  {
    var p1 := GitPushOf(repo, latex, cwd, fs, ok1);
    var a: seq<AgentStep> := [SetStreaming(true), SaveMarker(reasoning)];
    var m: seq<AgentStep> := [StreamReasoning, StreamAnswer, SaveMarker(completed)];
    var z: seq<AgentStep> := [SetStreaming(false)];
    PushTraceGuarded(repo, latex, cwd, fs, ok1);
    PushesGuardedConcat(a, p1.steps);
    if p1.error.None? {
      PushesGuardedConcat(a + p1.steps, m);
      var f := FinishOf(repo, latex, p1.cwd, p1.fs, ok2);
      if LockPathDefined(repo) {
        var p2 := GitPushOf(repo, latex, p1.cwd, p1.fs, ok2);
        PushTraceGuarded(repo, latex, p1.cwd, p1.fs, ok2);
        PushesGuardedConcat(p2.steps, if p2.error.None? then z else []);
      }
      PushesGuardedConcat(a + p1.steps + m, f.steps);
    }
  }

  function GitCommandCount(t: seq<AgentStep>): nat
  {
    if t == [] then 0 else (if t[0].GitCommands? then 1 else 0) + GitCommandCount(t[1..])
  }

  lemma {:induction false} GitCommandCountConcat(a: seq<AgentStep>, b: seq<AgentStep>)
    ensures GitCommandCount(a + b) == GitCommandCount(a) + GitCommandCount(b)
  {
    if a == [] {
      assert a + b == b;
    } else {
      assert (a + b)[1..] == a[1..] + b;
      GitCommandCountConcat(a[1..], b);
    }
  }

  lemma {:induction false} NoGitCommands(t: seq<AgentStep>)
    requires forall i :: 0 <= i < |t| ==> !t[i].GitCommands?
    ensures GitCommandCount(t) == 0
  {
    if t != [] {
      assert !t[0].GitCommands?;
      NoGitCommands(t[1..]);
    }
  }

  /** `git_push` runs the git commands once when it neither returns early nor raises, and never otherwise. */
  lemma PushCount(repo: RepoPath, latex: string, cwd: string, fs: FileSys, ok: bool)
    ensures var r := GitPushOf(repo, latex, cwd, fs, ok);
            GitCommandCount(r.steps) == if HasRepo(repo) && r.error.None? then 1 else 0
  {
    var r := GitPushOf(repo, latex, cwd, fs, ok);
    if HasRepo(repo) && r.error.None? {
      var x: seq<AgentStep> := [SetPushDisabled(true), CopyToRepo];
      var g: seq<AgentStep> := [GitCommands(ok)];
      var y: seq<AgentStep> := [SetPushDisabled(false)];
      assert r.steps == x + g + y;
      GitCommandCountConcat(x + g, y);
      GitCommandCountConcat(x, g);
      NoGitCommands(x);
      NoGitCommands(y);
      assert g[1..] == [];
    } else {
      NoGitCommands(r.steps);
    }
  }

  /**
   * A run as written pushes twice when it finishes with a repository and
   * never without one; stopped at the `index.lock` path it has pushed once
   * with a repository, and stopped by a push it has pushed at most once.
   */
  lemma RunPushCount(repo: RepoPath, latex: string, cwd: string, fs: FileSys,
                     reasoning: string, completed: string, ok1: bool, ok2: bool)
    ensures var e := RunOf(repo, latex, cwd, fs, reasoning, completed, ok1, ok2);
            && (e.error.None? ==> GitCommandCount(e.steps) == if HasRepo(repo) then 2 else 0)
            && (e.error == Some(IndexLockTypeError) ==> GitCommandCount(e.steps) == if HasRepo(repo) then 1 else 0)
            && (e.error.Some? && e.error.value.NoSuchFile? ==> GitCommandCount(e.steps) <= 1)
  {
    var p1 := GitPushOf(repo, latex, cwd, fs, ok1);
    var head: seq<AgentStep> := [SetStreaming(true), SaveMarker(reasoning)];
    var m: seq<AgentStep> := [StreamReasoning, StreamAnswer, SaveMarker(completed)];
    var z: seq<AgentStep> := [SetStreaming(false)];
    PushCount(repo, latex, cwd, fs, ok1);
    NoGitCommands(head);
    NoGitCommands(m);
    NoGitCommands(z);
    GitCommandCountConcat(head, p1.steps);
    if p1.error.None? {
      GitCommandCountConcat(head + p1.steps, m);
      var f := FinishOf(repo, latex, p1.cwd, p1.fs, ok2);
      if LockPathDefined(repo) {
        var p2 := GitPushOf(repo, latex, p1.cwd, p1.fs, ok2);
        PushCount(repo, latex, p1.cwd, p1.fs, ok2);
        NoGitCommands([]);
        GitCommandCountConcat(p2.steps, if p2.error.None? then z else []);
      } else {
        NoGitCommands(f.steps);
      }
      GitCommandCountConcat(head + p1.steps + m, f.steps);
    }
  }

  /**
   * With a non-empty `str` repository path that exists, a run as written
   * pushes once, raises at the `index.lock` path and never ends the stream;
   * `LATEX_COLAB_AGENT_STREAMING` stays `'True'`, so a remote checker that
   * reads it in the same process skips every later pass.
   */
  lemma StrRepoRunNeverEnds(s: string, latex: string, cwd: string, fs: FileSys, vars: map<string, string>,
                            reasoning: string, completed: string, ok1: bool, ok2: bool, o: GitSync.GitOutcomes)
    requires s != [] && PathJoin(cwd, latex) in fs.files && PathJoin(cwd, s) in fs.dirs
    ensures var e := RunOf(StrPath(s), latex, cwd, fs, reasoning, completed, ok1, ok2);
            e.error == Some(IndexLockTypeError) && GitCommandCount(e.steps) == 1 && SetStreaming(false) !in e.steps
    ensures var v := AfterRun(StrPath(s), vars, Some(IndexLockTypeError));
            v[AgentStreaming] == "True" && GitSync.CyclePlan(v[AgentStreaming] == "True", o) == []
  {
    var repo := StrPath(s);
    RunPushCount(repo, latex, cwd, fs, reasoning, completed, ok1, ok2);
    RunStreamsThroughout(repo, latex, cwd, fs, reasoning, completed, ok1, ok2);
    var t := RunOf(repo, latex, cwd, fs, reasoning, completed, ok1, ok2).steps;
    assert t[|t| - 1] == SaveMarker(completed);
  }

  /** With a relative repository, the first push succeeding leaves the second looking for the repository inside itself. */
  lemma RelativeSecondPush(p: string, latex: string, cwd: string, fs: FileSys, ok1: bool, ok2: bool)
    requires p != [] && !IsAbsolute(p) && IsAbsolute(latex)
    requires latex in fs.files && PathJoin(cwd, p) in fs.dirs && PathJoin(PathJoin(cwd, p), p) !in fs.dirs
    ensures var p1 := GitPushOf(PathObject(p), latex, cwd, fs, ok1);
            p1.error.None? && p1.cwd == PathJoin(cwd, p)
            && GitPushOf(PathObject(p), latex, p1.cwd, p1.fs, ok2).steps == [SetPushDisabled(true)]
            && GitPushOf(PathObject(p), latex, p1.cwd, p1.fs, ok2).error.Some?
            && GitPushOf(PathObject(p), latex, p1.cwd, p1.fs, ok2).error.value.NoSuchFile?
  {
    var repo := PathObject(p);
    PathJoinAbsolute(cwd, latex);
    GitPushDirectory(repo, latex, cwd, fs, ok1);
    var p1 := GitPushOf(repo, latex, cwd, fs, ok1);
    PathJoinAbsolute(p1.cwd, latex);
    GitPushDirectory(repo, latex, p1.cwd, p1.fs, ok2);
  }

  /**
   * With a relative `Path` repository, such as the command line's default
   * `overleaf_repo`, the first push leaves the process inside it, so the
   * second copies to `overleaf_repo/overleaf_repo/<file>` from there. Unless
   * that nested directory exists the push raises FileNotFoundError: the run
   * has pushed once, never ends the stream, and leaves both
   * `LATEX_COLAB_AGENT_STREAMING` and `GIT_PUSH_DISABLED` at `'True'`.
   */
  lemma RelativeRepoSecondPushRaises(p: string, latex: string, cwd: string, fs: FileSys, vars: map<string, string>,
                                     reasoning: string, completed: string, ok1: bool, ok2: bool)
    requires p != [] && !IsAbsolute(p) && IsAbsolute(latex)
    requires latex in fs.files && PathJoin(cwd, p) in fs.dirs && PathJoin(PathJoin(cwd, p), p) !in fs.dirs
    ensures var e := RunOf(PathObject(p), latex, cwd, fs, reasoning, completed, ok1, ok2);
            e.error.Some? && e.error.value.NoSuchFile? && GitCommandCount(e.steps) == 1 && SetStreaming(false) !in e.steps
            && var v := AfterRun(PathObject(p), vars, e.error);
               v[AgentStreaming] == "True" && v[GitPushDisabled] == "True"
  {
    var repo := PathObject(p);
    RelativeSecondPush(p, latex, cwd, fs, ok1, ok2);
    var p1 := GitPushOf(repo, latex, cwd, fs, ok1);
    var head: seq<AgentStep> := [SetStreaming(true), SaveMarker(reasoning)];
    var m: seq<AgentStep> := [StreamReasoning, StreamAnswer, SaveMarker(completed)];
    var z: seq<AgentStep> := [SetPushDisabled(true)];
    assert FinishOf(repo, latex, p1.cwd, p1.fs, ok2).steps == z;
    PushCount(repo, latex, cwd, fs, ok1);
    NoGitCommands(head);
    NoGitCommands(m);
    NoGitCommands(z);
    GitCommandCountConcat(head, p1.steps);
    GitCommandCountConcat(head + p1.steps, m);
    GitCommandCountConcat(head + p1.steps + m, z);
    RunStreamsThroughout(repo, latex, cwd, fs, reasoning, completed, ok1, ok2);
  }

  /** How the handler's `on_modified` ends. */
  datatype HandlerOutcome = Ignored | PulledFlagMissing | Triggered(outcome: TriggerOutcome)

  /** A file event as the observer delivers it, with the outside world's answers while it is handled. */
  datatype FileEvent = FileEvent(isDirectory: bool, now: int, diffs: seq<EnvDiff>, ts1: string, ts2: string, ok1: bool, ok2: bool)

  class Agent {
    const repo: RepoPath
    const latex: string
    const conditionedStart: bool
    const env: Environ
    var lastModified: int
    var streaming: bool
    var cwd: string
    var fs: FileSys
    var trace: seq<AgentStep>

    constructor(repo: RepoPath, latex: string, conditionedStart: bool, env: Environ, now: int, cwd: string, fs: FileSys)
      ensures this.repo == repo && this.latex == latex && this.conditionedStart == conditionedStart && this.env == env
      ensures lastModified == now && !streaming && this.cwd == cwd && this.fs == fs && trace == []
    {
      this.repo := repo;
      this.latex := latex;
      this.conditionedStart := conditionedStart;
      this.env := env;
      lastModified := now;
      streaming := false;
      this.cwd := cwd;
      this.fs := fs;
      trace := [];
    }

    /**
     * The handler's `on_modified`: nothing while streaming; otherwise a
     * trigger after the cooldown for a file event, or whenever
     * `LATEX_PULLED` is `'True'`, which is reset first. Reading the unset
     * variable raises. A trigger leaves the agent streaming exactly when
     * its run raised.
     */
    method OnModified(isDirectory: bool, now: int, diffs: seq<EnvDiff>, ts1: string, ts2: string, ok1: bool, ok2: bool)
      returns (outcome: HandlerOutcome)
      modifies this, env
      ensures old(streaming) ==> outcome == Ignored
      ensures var byEvent := !isDirectory && now - old(lastModified) > Cooldown;
              !old(streaming) && !byEvent && LatexPulled !in old(env.vars) ==> outcome == PulledFlagMissing
      ensures var byEvent := !isDirectory && now - old(lastModified) > Cooldown;
              outcome.Triggered? <==> !old(streaming) && (byEvent || old(env.IsTrue(LatexPulled)))
      ensures !outcome.Triggered? ==> unchanged(this) && env.vars == old(env.vars)
      ensures outcome.Triggered? ==>
        outcome.outcome == TriggerOutcomeOf(repo, latex, old(cwd), old(fs), conditionedStart, diffs, ts1, ts2, ok1, ok2)
        && (streaming <==> outcome.outcome.Raised?)
      ensures outcome.Triggered? && (outcome.outcome.Ran? || outcome.outcome.Raised?) ==>
        var e := RunOf(repo, latex, old(cwd), old(fs), outcome.outcome.reasoning, outcome.outcome.completed, ok1, ok2);
        trace == old(trace) + e.steps && cwd == e.cwd && fs == e.fs
        && env.vars == AfterRun(repo, old(env.vars)[LatexPulled := "False"], e.error)
      ensures outcome.Triggered? && !(outcome.outcome.Ran? || outcome.outcome.Raised?) ==>
        trace == old(trace) && cwd == old(cwd) && fs == old(fs) && env.vars == old(env.vars)[LatexPulled := "False"]
    {
      if streaming {
        return Ignored;
      }
      var byEvent := !isDirectory && now - lastModified > Cooldown;
      if !byEvent && LatexPulled !in env.vars {
        return PulledFlagMissing;
      }
      if byEvent || env.vars[LatexPulled] == "True" {
        env.Set(LatexPulled, "False");
        var t := Trigger(now, diffs, ts1, ts2, ok1, ok2);
        return Triggered(t);
      }
      outcome := Ignored;
    }

    /**
     * The observer handing events to the handler one after another. Once
     * the agent streams, which a raised run leaves it doing, every event is
     * ignored and nothing changes.
     */
    method HandleAll(events: seq<FileEvent>) returns (outcomes: seq<HandlerOutcome>)
      modifies this, env
      ensures |outcomes| == |events|
      ensures old(streaming) ==>
        unchanged(this) && env.vars == old(env.vars) && forall i :: 0 <= i < |outcomes| ==> outcomes[i] == Ignored
    {
      outcomes := [];
      for k := 0 to |events|
        invariant |outcomes| == k
        invariant old(streaming) ==>
          unchanged(this) && env.vars == old(env.vars) && forall i :: 0 <= i < k ==> outcomes[i] == Ignored
      {
        var e := events[k];
        var o := OnModified(e.isDirectory, e.now, e.diffs, e.ts1, e.ts2, e.ok1, e.ok2);
        outcomes := outcomes + [o];
      }
    }

    /** `trigger`: the first difference decides; a run rewrites the marker twice and pushes after each, as far as it gets. */
    method Trigger(now: int, diffs: seq<EnvDiff>, ts1: string, ts2: string, ok1: bool, ok2: bool)
      returns (outcome: TriggerOutcome)
      modifies this, env
      ensures outcome == TriggerOutcomeOf(repo, latex, old(cwd), old(fs), conditionedStart, diffs, ts1, ts2, ok1, ok2)
      ensures lastModified == if diffs != [] then now else old(lastModified)
      ensures outcome.Ran? || outcome.Raised? ==>
        var e := RunOf(repo, latex, old(cwd), old(fs), outcome.reasoning, outcome.completed, ok1, ok2);
        trace == old(trace) + e.steps && cwd == e.cwd && fs == e.fs
        && env.vars == AfterRun(repo, old(env.vars), e.error) && streaming == e.error.Some?
      ensures !(outcome.Ran? || outcome.Raised?) ==>
        trace == old(trace) && cwd == old(cwd) && fs == old(fs) && env.vars == old(env.vars) && streaming == old(streaming)
    {
      if diffs == [] {
        return NoDifference;
      }
      lastModified := now;
      var d := diffs[0];
      var model := PromptModel(d);
      if model.None? {
        return ModelUnknown;
      }
      if !(d.envType == "user" && d.text != [] && StatusStarts(conditionedStart, d.params)) {
        return NotStarted;
      }
      var reasoning, completed, error := Run(d, ts1, ts2, ok1, ok2);
      outcome := if error.None? then Ran(reasoning, completed) else Raised(reasoning, completed, error.value);
    }

    /**
     * The run for the prompt `d`: streaming on, the Reasoning marker, a
     * push, the streamed blocks, the completed marker; then, for a `Path`
     * repository only, a push and streaming off. Building the `index.lock`
     * path raises for any other repository, and a push can raise too; the
     * run stops there.
     */
    method Run(d: EnvDiff, ts1: string, ts2: string, ok1: bool, ok2: bool)
      returns (reasoning: string, completed: string, error: Option<AgentError>)
      modifies this, env
      ensures reasoning == MarkerText(d.text, ReasoningParams(d, ts1))
      ensures completed == MarkerText(d.text, CompletedParams(d, ts1, ts2))
      ensures var e := RunOf(repo, latex, old(cwd), old(fs), reasoning, completed, ok1, ok2);
              error == e.error && trace == old(trace) + e.steps && cwd == e.cwd && fs == e.fs
      ensures env.vars == AfterRun(repo, old(env.vars), error)
      ensures streaming == error.Some? && lastModified == old(lastModified)
    {
      streaming := true;
      env.Set(AgentStreaming, "True");
      var params := SetParam(d.params, "status", "Reasoning_" + ts1);
      reasoning := MarkerText(d.text, params);
      ghost var p1 := GitPushOf(repo, latex, cwd, fs, ok1);
      var push1, error1 := GitPush(ok1);
      assert push1 == p1.steps && error1 == p1.error && cwd == p1.cwd && fs == p1.fs;
      params := SetParam(params, "status", "completed_" + ts2);
      completed := MarkerText(d.text, params);
      ghost var e := RunOf(repo, latex, old(cwd), old(fs), reasoning, completed, ok1, ok2);
      if error1.Some? {
        assert e == RunEnd([SetStreaming(true), SaveMarker(reasoning)] + push1, error1, cwd, fs);
        trace := trace + ([SetStreaming(true), SaveMarker(reasoning)] + push1);
        assert env.vars == AfterRun(repo, old(env.vars), error1);
        return reasoning, completed, error1;
      }
      var steps := [SetStreaming(true), SaveMarker(reasoning)] + push1 + [StreamReasoning, StreamAnswer, SaveMarker(completed)];
      ghost var f := FinishOf(repo, latex, cwd, fs, ok2);
      assert e == RunEnd(steps + f.steps, f.error, f.cwd, f.fs);
      trace := trace + steps;
      error := Finish(ok2);
      AppendAssoc(old(trace), steps, f.steps);
      FlagsSettle(old(env.vars), "True", "False", if error.None? then "False" else "True", "False");
    }

    /**
     * The end of a run, after the completed marker: the `index.lock` path,
     * which raises TypeError unless the repository is a `Path`, then the
     * second push and, when that did not raise, streaming off.
     */
    method Finish(ok2: bool) returns (error: Option<AgentError>)
      requires streaming
      modifies this, env
      ensures var f := FinishOf(repo, latex, old(cwd), old(fs), ok2);
              error == f.error && trace == old(trace) + f.steps && cwd == f.cwd && fs == f.fs
      ensures env.vars == if !LockPathDefined(repo) then old(env.vars)
                          else if error.None? then old(env.vars)[GitPushDisabled := "False"][AgentStreaming := "False"]
                          else old(env.vars)[GitPushDisabled := "True"]
      ensures streaming == error.Some? && lastModified == old(lastModified)
    {
      if !repo.PathObject? {
        // `self.git_repo_path / ".git/index.lock"` raises TypeError
        return Some(IndexLockTypeError);
      }
      var push2;
      push2, error := GitPush(ok2);
      if error.Some? {
        trace := trace + push2;
        return;
      }
      streaming := false;
      env.Set(AgentStreaming, "False");
      trace := trace + (push2 + [SetStreaming(false)]);
    }

    /**
     * `git_push`: with a repository, `GIT_PUSH_DISABLED` is `'True'` while
     * the file is copied and the git commands run, a failed command being
     * only logged; a missing file or directory raises with the flag still
     * set. The working directory it returns to is the one it read after
     * entering the repository.
     */
    method GitPush(ok: bool) returns (steps: seq<AgentStep>, error: Option<AgentError>)
      modifies this, env
      ensures var r := GitPushOf(repo, latex, old(cwd), old(fs), ok);
              steps == r.steps && error == r.error && cwd == r.cwd && fs == r.fs
      ensures env.vars == if !HasRepo(repo) then old(env.vars)
                          else old(env.vars)[GitPushDisabled := if error.Some? then "True" else "False"]
      ensures streaming == old(streaming) && trace == old(trace) && lastModified == old(lastModified)
    {
      steps, error := [], None;
      if !HasRepo(repo) {
        return;
      }
      env.Set(GitPushDisabled, "True");
      steps := [SetPushDisabled(true)];
      var fileName := BaseName(latex);
      var destPath := PathJoin(RepoText(repo), fileName);
      var source := PathJoin(cwd, latex);
      if source !in fs.files {
        return steps, Some(NoSuchFile(source));
      }
      var dest := PathJoin(cwd, destPath);
      if PathJoin(cwd, RepoText(repo)) !in fs.dirs {
        return steps, Some(NoSuchFile(dest));
      }
      fs := fs.(files := fs.files + {dest});
      steps := steps + [CopyToRepo];
      cwd := PathJoin(cwd, RepoText(repo));
      var originalDir := cwd;
      steps := steps + [GitCommands(ok)];
      cwd := originalDir;
      env.Set(GitPushDisabled, "False");
      steps := steps + [SetPushDisabled(false)];
    }
  }
}
