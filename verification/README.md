# Overleaf LaTeX collaborator: a Dafny model of its deterministic core

The system keeps a local LaTeX file in step with an Overleaf project. It answers
prompts written into the document as `\begin{user} … \end{user}` blocks. A
prompt carries a `%parameters: key=value, …` line; the block with
`status=start` is sent to a language model. The answer comes back as
`reasoning` and `answer` blocks, and the status becomes `completed_<timestamp>`.
A watcher pushes local edits to the Overleaf git remote, and a remote checker
pulls remote edits back. A small web logger shows what is going on.

This project models the parts of that system that are logic rather than I/O:

- **Prompt parameters** (`PromptParams`, prompt_params.dfy).
  `_parse_parameters_from_text` reads only the first line that strips to
  `%parameters:…`. It splits the line at commas, splits each item at its first
  `=`, and a later key overwrites an earlier one. The server and the local
  client carry identical copies, so one definition serves both.
- **Environment scan** (`Environments`, environments.dfy). This is
  `_find_environments`: shortest `\begin{name}…\end{name}` matches, left to
  right, without overlap. For `user` blocks it also reads the parameters and
  computes the text without the parameter line. The two copies differ only in
  that removal pattern. Written in raw strings, it asks for one (server) or two
  (client) literal backslashes after the `%`. An ordinary parameter line is
  therefore never removed (`Environments.OrdinaryCleanText`).
- **Server processing** (`ServerProcess`, server_process.dfy). This is the
  selection, status rewrite and splice of `process_latex_with_ai`. The
  rewrite's first pattern `status\\s*=\\s*start` (raw string) also needs literal
  backslashes. Its fallback appends `, status=completed_<ts>` to every
  `%\…parameters:` match (at most one per line), each running to the end of
  its line, and to nothing else. An ordinary block therefore comes back verbatim
  (`ServerProcess.OrdinaryBlockKept`).
- **Local client processing** (`LocalProcess`, local_process.dfy). This is the
  same step in `process_local_latex`. There the counted substitution falls back
  to two line-wise substitutions. Re-reading the parameters after them gives
  `status=completed_<ts>`, because the last key wins. The blocks the client
  writes hold two backslashes before `begin`/`end` and a literal `\n` where a
  newline was meant, since its f-strings are not raw.
- **Credential URL** (`CredentialUrl`, credential_url.dfy). This is
  `_create_credential_url`: the token is percent-encoded as `quote(token,
  safe='')` does it (UTF-8, then section 2.3 of RFC 3986). It is put in the
  user-info part, and a trailing `.git` is dropped. Its two 400 answers are
  modelled; its 500 answer for any other exception is not (see "Left out").
- **LaTeX log and source scanners** (`LatexLog`, latex_log.dfy). These cover
  `map_package_to_debian`, `extract_latex_errors`, `extract_missing_packages`,
  `extract_packages_from_source` and `validate_pdf_creation`.
- **Synchronisation** (`GitSync`, git_sync.dfy; `OsEnviron`, os_environ.dfy).
  This covers the watcher's event gate (`LatexFileHandler.on_modified`), the
  empty-content guard of `sync_with_overleaf`, the `write_with_lock` retry
  loop, `update_local_file` and one pass of the remote checker. The lock, git
  and the file system are abstract: their outcomes are inputs, and what the code
  does is recorded as a sequence of steps.
- **Agent** (`ColabAgent`, colab_agent.dfy). This is `LatexColabAgent.py`'s
  handler gate, the `trigger` decision, the marker run `start` → `Reasoning_<ts>`
  → `completed_<ts>` with `streaming` set throughout, and the `GIT_PUSH_DISABLED`
  bracketing of `git_push`. The repository path is `None`, a `str` or a `Path`.
  Only a `Path` lets a run build the `index.lock` path after the completed
  marker. For the other two the run raises there, and the agent stays
  `streaming` for good. The model also keeps the working directory and the
  files and directories that exist. `git_push` reads `original_dir` after
  entering the repository, so it never returns. With a relative repository
  path the second push of a run then misses its directory and raises (see
  "Findings").
- **Web logger** (`WebLogger`, web_logger.dfy). `WebLoggerServer` keeps two
  append-only lists routed by level and per-client read cursors. `/updates`
  returns exactly what the client has not yet seen.
- **Model hint** (`LlmModels`, llm_models.dfy). This is the `models` list and
  `name_hint`, a first-match substring lookup.

`Text` (text.dfy) holds the Python string operations the rest relies on:
`strip`, `split`, `splitlines`, `lower`, `find` and `int` to `str`.

Pure code is modelled as functions and lemmas. Code that updates objects in
place is modelled as classes with methods: the watcher's handler, the agent,
the web logger and the environment variables. Loops are modelled as methods
with loop invariants, each proved against the function that specifies it.

## Model

| member | source | states |
|---|---|---|
| LlmModels.FirstMatch | LLM_Models.py:46 | the index found is the first entry from `from` on whose lower-cased text contains the query; no result means no entry from there on contains it |
| LlmModels.NameHint | LLM_Models.py:46 | the hint is a member of `models` containing the query, with no earlier entry containing it; None (the IndexError) exactly when no entry contains the query |
| LlmModels.EntriesAreLowerCase | LLM_Models.py:3-44 | every entry of `models` is its own lower-case form |
| LlmModels.UpperCaseQueryNeverMatches | LLM_Models.py:3-46 | a query holding an upper-case letter gets no hint |
| LlmModels.HintOfEntryIsAtOrBefore | LLM_Models.py:3-46 | the hint of an entry is that entry or an entry before it |
| LlmModels.DefaultModelHint | LLM_Models.py:23-46 | the agent's default `claude-3.7-sonnet:thinking` is hinted as `anthropic/claude-3.7-sonnet:thinking` |
| LlmModels.EarlierEntriesMissDefault | LLM_Models.py:3-23 | no entry before `anthropic/claude-3.7-sonnet:thinking` contains the default name |
| PromptParams.ParseItem | server.py:168-179 | an item that yields a pair yields a non-empty key |
| PromptParams.ParseParameters | server.py:144-185 | the loop over the lines returns the parameters of the first parameter line, or none |
| PromptParams.ParseItemList | server.py:168-179 | the loop over the items builds the map the items define |
| PromptParams.ParamLineFound | server.py:152-163 | when line `i` is the first parameter line the parameters are its items, and with none the map is empty |
| PromptParams.NoParamLineNoParams | server.py:152-165 | text without a parameter line has no parameters |
| PromptParams.ParamsFromFirstLine | server.py:152-168 | the parameters are the items of the first line that strips to `%parameters:…`, whatever later lines hold |
| PromptParams.KeyPresentIff | server.py:168-183 | a key is in the map exactly when some item yields it, and it is never empty |
| PromptParams.LastKeyWins | server.py:168-183 | a key takes the value of the last item that names it |
| PromptParams.ParamsAfterPlain | server.py:152-161 | a first line without `%parameters:` does not change what is read |
| PromptParams.ParamsOfOneLine | server.py:152-183 | `%parameters: key=value` and a newline read back as exactly that pair |
| PromptParams.ParamsAfterFreshLine | server.py:152-183 | text without a marker, then a fresh parameter line, reads back as that line's single pair |
| PromptParams.ParamsBySplit | local_client.py:28-60 | for text whose only breaks are newlines, reading by `splitlines` agrees with reading the pieces between newlines |
| Environments.ParamLineMatch | server.py:200 | a match of the removal pattern starts with `%` followed by `k` literal backslashes and ends after it |
| Environments.OrdinaryTextKept | server.py:200 | text with no `%\` keeps every character under the removal substitution |
| Environments.OrdinaryCleanText | local_client.py:100-102 | for a block with no `%\` the clean text is the stripped inner text, parameter line included |
| Environments.SpansMatch | server.py:191-192 | every match found begins with the begin tag and is closed by the first end tag after it; matches come left to right without overlap |
| Environments.FindSpans | server.py:191-192 | the `finditer` loop yields exactly the matches of the scan |
| Environments.ScanStep | server.py:192 | one loop turn keeps the matches found so far plus the rest of the scan equal to the whole scan, and moves forward |
| Environments.NextMatch | server.py:191-192 | the next match is the leftmost begin tag and the first end tag after it; there is none when either tag is missing |
| Environments.MakeEnv | server.py:193-210 | the dictionary's start and end bound the whole match, `full_content` is the document between them, and `inner_content` lies between the tags |
| Environments.Scan | server.py:187-211 | one dictionary per match |
| Environments.BuildEnv | server.py:193-210 | the loop body builds the dictionary of one match |
| Environments.BlockFields | server.py:196-200 | parameters and clean text are computed for `user` blocks only |
| Environments.FindEnvironments | server.py:187-211 | the loop returns the dictionaries of the scan, in order |
| Environments.MakeEnvWellFormed | server.py:193-210 | each dictionary has `start < end <= len(content)`, `content[start:end] == full_content`, the tags around `inner_content`, and no end tag inside it |
| Environments.ScanWellFormed | server.py:187-211 | every dictionary is well formed and each ends before the next starts |
| Environments.ScanAgreesAcrossClients | local_client.py:62-113 | the client's scan gives the same start, end, full and inner text and parameters as the server's |
| ServerProcess.SkipEssIgnoringCase | server.py:478 | the run of `s`/`S` the pattern's `\\s*` consumes ends at a character that is neither |
| ServerProcess.MarkerPrefixEnd | server.py:478 | a match of `%\\s*parameters:` starts with `%` and a literal backslash |
| ServerProcess.StatusPartEnd | server.py:478 | a match of `status\\s*=\\s*start` ends after its seven fixed characters |
| ServerProcess.FirstStatusPart | server.py:478 | the lazy `.*?` stops at the first place where the status part matches |
| ServerProcess.LineEnd | server.py:486 | `.*?$` under MULTILINE stops at the next newline or at the end |
| ServerProcess.Splice | server.py:514 | the result keeps the text before `start`, then holds the block, then the text from `end` on |
| ServerProcess.ProcessOutcomes | server.py:435-454 | the call fails with 500 exactly when the client is missing, and returns the content unchanged exactly when no `user` block's stripped, lower-cased status is `start` |
| ServerProcess.ProcessedIsSplice | server.py:445-514 | with block `i` the first to ask for processing, the output is the text before it, the rebuilt block, the new blocks and the text after it, and the index guard never fires |
| ServerProcess.StatusSubOrdinary | server.py:476-481 | without `%\` in the text the status substitution changes nothing |
| ServerProcess.AppendStatusOrdinary | server.py:484-489 | without `%\` in the text the append substitution changes nothing |
| ServerProcess.OrdinaryBlockKept | server.py:476-489 | a block with an ordinary `%parameters:` line comes back verbatim, with the same parameters |
| ServerProcess.StatusSubFires | server.py:476-483 | the status substitution either changes nothing or leaves `status=<new>` in the text |
| ServerProcess.FallbackOnlyWhenUnchanged | server.py:476-489 | the append runs only when the status substitution changed nothing |
| ServerProcess.FreshParameterLine | server.py:490-493 | a block without `%parameters:` gets a parameter line whose only pair is the new status, which no longer asks for processing |
| ServerProcess.FreshLineText | server.py:490-493 | such a block becomes its stripped text, a newline, `%parameters: status=<new>` and a newline |
| ServerProcess.StatusValueIsToken | server.py:470-471 | `completed_<timestamp>` is a single non-blank token without commas |
| ServerProcess.StrippedValue | server.py:447 | the new status never reads as `start` |
| CredentialUrl.Utf8 | server.py:114 | a character encodes as one to four bytes |
| CredentialUrl.Utf8RoundTrip | server.py:114 | decoding the UTF-8 encoding of a string gives the string back |
| CredentialUrl.DecodeQuoteBytes | server.py:114 | the quoted bytes consist of unreserved characters and `%XX` triplets and percent-decode back to the bytes |
| CredentialUrl.UnquoteQuote | server.py:114 | the encoded token percent-decodes and UTF-8-decodes back to the token |
| CredentialUrl.HostPartSpec | server.py:108-111 | the host is the whole netloc when it has no `@`, else what follows its first `@` |
| CredentialUrl.CredentialUrlErrors | server.py:100-106 | the builder answers 400 exactly when the token is empty or the URL lacks a scheme or a netloc |
| CredentialUrl.CredentialUrlShape | server.py:108-130 | on success the URL is the reassembled URL with `git:<encoded token>@<host>` as netloc, less one trailing `.git`, and starts with `<scheme>://git:<encoded token>@` |
| CredentialUrl.QueryFragmentAfter | server.py:119-126 | adding the query and the fragment only appends to the URL |
| LatexLog.MappingEntries | AgenticLatexGitPush.py:38-73 | every table entry is a single `texlive-` collection |
| LatexLog.MappingSuggests | AgenticLatexGitPush.py:32-81 | the answer is never empty and names only `texlive-` collections; it has one element exactly when the package is in the table |
| LatexLog.FirstLineWithFound | AgenticLatexGitPush.py:875-889 | the line found is the first from `i` on holding a pattern, stripped; no line is found only when none holds one |
| LatexLog.PdfValidIff | AgenticLatexGitPush.py:865-921 | the PDF is valid exactly when it exists, is larger than 1000 bytes and starts with `%PDF-`, and then the answer is (True, True, None) |
| LatexLog.PdfFlagsAndMessage | AgenticLatexGitPush.py:865-921 | an invalid PDF always comes with a message, and "exists" is True exactly when the file is not missing |
| LatexLog.ReturnCodeKeepsFlags | AgenticLatexGitPush.py:853-921 | the return code changes neither flag |
| LatexLog.MissingPdfReturnCode | AgenticLatexGitPush.py:919-921 | a missing PDF with no fatal log line is explained by the return code |
| LatexLog.MissingPdfFatalLine | AgenticLatexGitPush.py:875-921 | a missing PDF is explained by the first log line holding a fatal pattern, stripped |
| LatexLog.ExtractLatexErrors | AgenticLatexGitPush.py:152-217 | the loops return the errors of the main scan, else of the first fallback, else of the second |
| LatexLog.ScanLines | AgenticLatexGitPush.py:164-187 | the main loop with its two flags, and the flush after it, returns what the main scan specifies |
| LatexLog.ScanTurn | AgenticLatexGitPush.py:165-185 | one turn opens, extends or closes the current error as the scan specifies |
| LatexLog.ContextScan | AgenticLatexGitPush.py:189-206 | the first fallback loop returns the context of every line holding one of its patterns |
| LatexLog.ContextTurn | AgenticLatexGitPush.py:192-206 | a line holding a pattern contributes the context of its first occurrence in the log, else nothing |
| LatexLog.IssueScan | AgenticLatexGitPush.py:208-215 | the second fallback loop returns every line holding an issue word, stripped |
| LatexLog.ClosesIffBlank | AgenticLatexGitPush.py:180-185 | a line closes the open error exactly when it strips to nothing |
| LatexLog.LatexErrorsChoice | AgenticLatexGitPush.py:164-216 | the main scan reports one error per opening line; a fallback runs only when every earlier scan found nothing |
| LatexLog.ContextErrorsHoldPattern | AgenticLatexGitPush.py:189-206 | every message of the first fallback holds one of its patterns |
| LatexLog.DistinctList | AgenticLatexGitPush.py:490 | `list(set(xs))` holds each element of `xs` exactly once |
| LatexLog.ExtractMissingPackages | AgenticLatexGitPush.py:435-490 | the result has no duplicates, holds exactly the names the branches find, and each is written in the log followed by `.sty` |
| LatexLog.MissingTurn | AgenticLatexGitPush.py:445-487 | the loop body for one line adds what the first branch whose test the line passes adds |
| LatexLog.StyWordLoop | AgenticLatexGitPush.py:470-476 | branch 3's word loop collects every word ending in `.sty`, without it |
| LatexLog.LooseWordLoop | AgenticLatexGitPush.py:481-487 | branch 4's word loop adds new, non-empty names, checking each against the list as it grows |
| LatexLog.LooseTurn | AgenticLatexGitPush.py:483-487 | one word adds its name exactly when it is new and not empty |
| LatexLog.Branch2Dead | AgenticLatexGitPush.py:445-456 | every line passing branch 2's test passed branch 1's, so branch 2 never runs |
| LatexLog.StandardMessageBranches | AgenticLatexGitPush.py:445-456 | pdflatex's message for a missing style file passes the tests of branches 1 and 2 |
| LatexLog.StandardMessageMissed | AgenticLatexGitPush.py:445-454 | as written, that message yields no package name |
| LatexLog.FixedStandardMessage | AgenticLatexGitPush.py:445-464 | with the backtick test first, the message yields its package name |
| LatexLog.MissingNamesInLog | AgenticLatexGitPush.py:441-487 | every name reported is written in the log followed by `.sty` |
| LatexLog.ExtractPackagesFromSource | AgenticLatexGitPush.py:492-540 | the result has no duplicates and holds exactly the packages the source names plus their dependencies |
| LatexLog.CollectItems | AgenticLatexGitPush.py:515-518 | the loop splits every group at commas and keeps every piece, stripped, empty ones included |
| LatexLog.AddDependencies | AgenticLatexGitPush.py:520-537 | the dependency and class rules are applied to the names |
| LatexLog.DependencyRules | AgenticLatexGitPush.py:520-537 | a name is in the result exactly when the source names it, or it is `pgf` with `tikz`, `url` with `hyperref`, or `xcolor` with `color`, `tcolorbox` or a beamer class |
| LatexLog.DependenciesClosed | AgenticLatexGitPush.py:520-540 | the result is closed under tikz⇒pgf, hyperref⇒url, color⇒xcolor, tcolorbox⇒xcolor and beamer⇒xcolor |
| LatexLog.FindAllGroups | AgenticLatexGitPush.py:504-513 | every group found is non-empty, has no `}` and stands between braces in the source |
| LatexLog.CommandRoundTrip | AgenticLatexGitPush.py:504-513 | a command, optional options and one braced group are found as exactly that group |
| GitSync.WriteWithLock | AgenticLatexGitPush.py:1549-1582 | the attempt loop does what the specification of the attempts says, step by step |
| GitSync.LockAttempt | AgenticLatexGitPush.py:1555-1582 | one attempt writes and returns, raises after the last failure, or sleeps; the lock is released in every case |
| GitSync.AttemptsOutcome | AgenticLatexGitPush.py:1553-1569 | the attempts end in a write exactly when some attempt gets the lock, and otherwise in `TimeoutError` |
| GitSync.AttemptsWrites | AgenticLatexGitPush.py:1558-1564 | the content reaches the file once on success and never otherwise |
| GitSync.AttemptsCounts | AgenticLatexGitPush.py:1553-1582 | there are as many releases as attempts, one sleep fewer, and no more attempts than remain |
| GitSync.LockRunOutcome | AgenticLatexGitPush.py:1549-1582 | no attempt exactly when `max_attempts <= 0`; a write exactly when some attempt gets the lock; the content written once on success, never otherwise |
| GitSync.LockRunBalanced | AgenticLatexGitPush.py:1553-1582 | at most `max_attempts` attempts, sleeps only between attempts, and an unlock, close and removal of the lock file for every attempt |
| GitSync.LatexFileHandler.constructor | AgenticLatexGitPush.py:925-929 | the handler starts with `last_modified` set to now |
| GitSync.LatexFileHandler.OnModified | AgenticLatexGitPush.py:931-943 | it syncs exactly when the gate opens, then sets `last_modified` to now and copies non-empty text to the repository |
| GitSync.SyncGateCases | AgenticLatexGitPush.py:931-940 | a disabled push or another file never syncs, streaming always does, and otherwise more than five seconds must have passed |
| GitSync.CooldownSuppresses | AgenticLatexGitPush.py:936-941 | without streaming, a second event within five seconds of a sync does not sync again |
| GitSync.LatexFileHandler.SyncWithOverleaf | AgenticLatexGitPush.py:954-961 | empty content is not copied; other content becomes the repository's copy |
| GitSync.LatexFileHandler.UpdateLocalFile | AgenticLatexGitPush.py:1585-1621 | non-empty repository text is written under the lock; `LATEX_PULLED` becomes `'True'` unless the file is missing or the lock timed out |
| GitSync.UpdateOutcomeIff | AgenticLatexGitPush.py:1585-1621 | the update succeeds exactly when the repository file exists and, if it has text, some attempt gets the lock |
| GitSync.LatexFileHandler.RemoteCycle | AgenticLatexGitPush.py:1352-1436 | one pass does the steps of the cycle plan, and the files and `LATEX_PULLED` change only after a successful pull |
| GitSync.LatexFileHandler.CheckRemote | AgenticLatexGitPush.py:1356-1433 | the pass without streaming: fetch, `rev-list`, and the pull phase when the remote is ahead |
| GitSync.LatexFileHandler.PullPhase | AgenticLatexGitPush.py:1374-1421 | status, stash, pull, pop and update, each only when the steps before it succeeded |
| GitSync.CycleSkippedWhileStreaming | AgenticLatexGitPush.py:1353-1354 | while the agent streams, the pass does nothing, not even wait |
| GitSync.CycleFetchFirst | AgenticLatexGitPush.py:1356-1436 | otherwise the pass starts with the fetch, runs `rev-list` right after a successful fetch only, and ends with the wait |
| GitSync.CyclePullsOnlyWhenBehind | AgenticLatexGitPush.py:1374-1421 | status, stash, pull, pop and the update happen only when the remote is ahead |
| GitSync.CycleStashIff | AgenticLatexGitPush.py:1379-1393 | the stash happens exactly when the remote is ahead and `status --porcelain` reports changes |
| GitSync.CyclePopIff | AgenticLatexGitPush.py:1398-1418 | the stash is popped exactly when something was stashed and the pull succeeded, and right after the pull |
| GitSync.CycleUpdateIff | AgenticLatexGitPush.py:1398-1421 | the update runs exactly when the pull succeeded; a failed pop is reported and the update still runs |
| OsEnviron.Environ.Set | LatexColabAgent.py:94 | the variable takes the new value, and it reads as true exactly when that value is `'True'` |
| ColabAgent.SetParamLookup | LatexColabAgent.py:236 | after `params[key] = value` the key reads the value and every other key reads as before |
| ColabAgent.SetParamKeys | LatexColabAgent.py:236 | an existing key keeps its place and a new key goes last |
| ColabAgent.StatusTransitions | LatexColabAgent.py:231-270 | a run sets the status to `Reasoning_<ts1>`, then `completed_<ts2>`, keeps the other parameters and their order, and the result no longer starts a run |
| ColabAgent.UnconditionedNeverRuns | LatexColabAgent.py:229-231 | without `conditioned_start` nothing ever runs, whatever the repository |
| ColabAgent.GitPushDirectory | LatexColabAgent.py:121-164 | `git_push` raises exactly when the LaTeX file or the repository is missing as seen from the working directory; otherwise it leaves the process in the repository, because `original_dir` is read after the `chdir`; returning to the directory read before the `chdir` leaves it where it was |
| ColabAgent.RunStreamsThroughout | LatexColabAgent.py:231-282 | a run sets `streaming` first and touches it nowhere in between; it clears it, as its last step, exactly when the run did not raise |
| ColabAgent.FixedRunStreamsThroughout | LatexColabAgent.py:273-282 | with the lock path built by `Path(...)` for a repository only, and each push returning to where it started, a run still clears `streaming`, as its last step, exactly when it did not raise |
| ColabAgent.FixedRunCompletes | LatexColabAgent.py:121-164 | with those corrections a run whose LaTeX file and repository exist as seen from where it starts never raises: it pushes twice with a repository and never without one, ends the stream and leaves the working directory as it found it |
| ColabAgent.FixAgreesOnAbsolutePaths | LatexColabAgent.py:273-282 | for a `Path` repository and a LaTeX file both given as absolute paths, the run as written takes the same steps and ends the same way as the corrected one |
| ColabAgent.PushTraceGuarded | LatexColabAgent.py:121-164 | in `git_push` the git commands run only while `GIT_PUSH_DISABLED` is `'True'`, right after the copy |
| ColabAgent.RunGitCommandsGuarded | LatexColabAgent.py:231-282 | the same holds for the whole run, wherever it stops |
| ColabAgent.PushCount | LatexColabAgent.py:121-164 | `git_push` runs the git commands once when the path is true and nothing raises, and never otherwise |
| ColabAgent.RunPushCount | LatexColabAgent.py:231-282 | a run that finishes has pushed twice with a repository and never without one; one stopped at the `index.lock` path has pushed once with a repository; one stopped by a push has pushed at most once |
| ColabAgent.StrRepoRunNeverEnds | LatexColabAgent.py:34 | with a non-empty `str` path to a repository that exists, a run as written pushes once, raises at line 274, never ends the stream and leaves `LATEX_COLAB_AGENT_STREAMING` at `'True'`, so a remote checker in the same process skips every later pass |
| ColabAgent.RelativeSecondPush | LatexColabAgent.py:139-140 | with a relative repository path, an absolute LaTeX path that exists and the repository present with no nested copy of it, the first push succeeds and moves the process into the repository, and the second then looks for the repository inside itself and raises FileNotFoundError before any git command |
| ColabAgent.RelativeRepoSecondPushRaises | LatexColabAgent.py:299 | with a relative `Path` repository, such as the default `./overleaf_repo`, present and with no nested copy of it, and an absolute LaTeX path that exists, a run pushes once, raises in the second push, never ends the stream and leaves `LATEX_COLAB_AGENT_STREAMING` and `GIT_PUSH_DISABLED` at `'True'` |
| ColabAgent.Agent.constructor | LatexColabAgent.py:31-76 | the agent starts not streaming, with its repository path, its LaTeX file and `last_modified` set to now, in the given working directory |
| ColabAgent.Agent.OnModified | LatexColabAgent.py:89-95 | nothing while streaming; otherwise a trigger after the two-second cooldown for a file event or when `LATEX_PULLED` is `'True'`, which is reset first; reading the unset flag raises; after a trigger the agent is streaming exactly when the run raised |
| ColabAgent.Agent.HandleAll | LatexColabAgent.py:108-118 | once the agent is streaming, which a raised run leaves it, every later event is ignored and nothing changes |
| ColabAgent.Agent.Trigger | LatexColabAgent.py:203-282 | the outcome is decided by the first difference; `last_modified` changes only when there is one; a run appends its steps and moves the working directory as its pushes do; a finished run leaves `streaming` and its variable cleared, a raised one leaves both set |
| ColabAgent.Agent.Run | LatexColabAgent.py:231-282 | the two markers are the text with the rebuilt parameter line; the run raises when a push cannot find its files or, after the completed marker, when the repository is not a `Path`, and then stops with `streaming` set; a push that raised leaves `GIT_PUSH_DISABLED` at `'True'` |
| ColabAgent.Agent.Finish | LatexColabAgent.py:273-282 | after the completed marker the run raises TypeError unless the repository is a `Path`; otherwise it pushes from where the first push left the process and ends the stream unless that push raised |
| ColabAgent.Agent.GitPush | LatexColabAgent.py:121-164 | nothing when the path is false (`None` or `""`); otherwise the copy, made from the working directory, and the git commands, after which `GIT_PUSH_DISABLED` is `'False'` and the process is in the repository; a missing file or directory raises FileNotFoundError with the flag left `'True'` |
| WebLogger.RoutedAppendsOne | LoggerServer.py:357-388 | an entry is appended to `logs` when its level is 0 and to `info` otherwise; the other list is unchanged |
| WebLogger.SubmitEntryFields | LoggerServer.py:343-388 | `log`, `box` and `gif` make an entry with the defaults `unknown`, level 0, `Information` and 0.3; any other command makes none |
| WebLogger.CursorOf | LoggerServer.py:294-303 | a client seen for the first time starts with both cursors at 0 |
| WebLogger.AdvancedMonotone | LoggerServer.py:310-325 | cursors never decrease, and a request moves them to the current lengths |
| WebLogger.RepeatedUpdatesEmpty | LoggerServer.py:310-328 | a request repeated at once returns no updates |
| WebLogger.CaughtUpReceivesNew | LoggerServer.py:310-328 | a client that has seen everything receives exactly the new logs, then the new info |
| WebLogger.NewClientReceivesAll | LoggerServer.py:294-328 | a new client receives all logs, then all info |
| WebLogger.Unseen | LoggerServer.py:313-323 | the loop returns the suffix from the cursor on, or nothing |
| WebLogger.WebLoggerServer.constructor | LoggerServer.py:23-31 | the server starts with empty lists, not running and without client table |
| WebLogger.WebLoggerServer.Append | LoggerServer.py:542-545 | one entry is routed by level |
| WebLogger.WebLoggerServer.AddLog | LoggerServer.py:533-545 | a `log` entry with the sender, the level and the text is routed by level |
| WebLogger.WebLoggerServer.AddBox | LoggerServer.py:547-560 | a `box` entry with its title is routed by level |
| WebLogger.WebLoggerServer.AddGifBackground | LoggerServer.py:511-531 | a `gif` entry with its transparency is routed by level |
| WebLogger.WebLoggerServer.Start | LoggerServer.py:467-495 | a running server is left alone; otherwise it runs afterwards, with its lists and cursors kept |
| WebLogger.WebLoggerServer.Stop | LoggerServer.py:497-509 | a stopped server is left alone; otherwise it is not running afterwards |
| WebLogger.WebLoggerServer.PollUpdates | LoggerServer.py:290-328 | the unseen suffixes are returned, the client table is created if needed, and the client's cursors move to the lengths |
| WebLogger.WebLoggerServer.Submit | LoggerServer.py:337-403 | invalid JSON answers 400 and changes nothing; a JSON object answers success and appends at most the one entry its command makes |
| WebLogger.WebLoggerServer.HandleGet | LoggerServer.py:280-331 | `/updates` returns the unseen entries, `/` the page, any other path 404 |
| WebLogger.WebLoggerServer.HandlePost | LoggerServer.py:333-418 | `/submit` only ever appends, `/shutdown` stops the server, any other path answers 404 and changes nothing |
| LocalProcess.SubnStatus | local_client.py:263-268 | a substitution count of zero leaves the text as it was |
| LocalProcess.MarkerIndexSpec | local_client.py:272-276 | the index found is the first occurrence of `%parameters:` in any case |
| LocalProcess.LocalOutcomes | local_client.py:234-301 | nothing is done, and True returned, exactly when no `user` block's stripped, lower-cased status is `start`; a failed model call is the only other early stop; the index guard never fires |
| LocalProcess.LocalIsSplice | local_client.py:234-301 | with block `i` the first to ask for processing, the output is the text before it, the rebuilt block, the new blocks and the text after it |
| LocalProcess.SubnNeedsBackslash | local_client.py:263-268 | text without a backslash gets no substitution from `status\\s*=\\s*start` |
| LocalProcess.FallbackParams | local_client.py:270-284 | after both fallbacks the parameter line read before is read again with the status set to the new value, and text without one gains none |
| LocalProcess.FallbackLineParams | local_client.py:270-284 | line by line: the first parameter line keeps its pairs and gains the new status, and no parameter line appears or vanishes |
| LocalProcess.AppendedItems | local_client.py:272-276 | a parameter line with `, status=<new>` appended reads as its pairs with the status set |
| LocalProcess.CommaItems | local_client.py:279-284 | a parameter line ending in a comma with ` status=<new>` put after it reads as its pairs with the status set |
| LocalProcess.AppendedNotComma | local_client.py:272-284 | a line the first fallback extended gives the second nothing to do |
| LocalProcess.DropBlankParams | local_client.py:280 | the blank lines `\s*$` swallows carry no parameters |
| LocalProcess.FallbackOfOneLine | local_client.py:272-284 | one marked line not ending in a comma gets `, status=<new>` and nothing more |
| LocalProcess.LocalReparse | local_client.py:261-284 | for a block with `%parameters:`, no backslash and only newlines as breaks, re-reading gives the old parameters with `status=completed_<ts>`, which no longer asks for processing |
| LocalProcess.LocalFreshParameterLine | local_client.py:285-287 | a block without `%parameters:` is rewritten as the server rewrites it, with the new status as its only parameter |
| LocalProcess.FormFeedKeepsStart | local_client.py:272-276 | a form feed after `%parameters: status=start` is no newline for the fallback but a line break for the parser, so the block still asks for processing |
| LocalProcess.LocalUserBlockTags | local_client.py:289 | the rebuilt user block has one backslash more than the server's in front of each tag |
| LocalProcess.BlockNewlines | local_client.py:290-292 | the template adds no line break of its own, so the new blocks hold four newlines plus exactly those of the reply's reasoning, title and answer |

## Left out

- Input and output: file reads and writes, HTTP requests and responses, sockets,
  HTML, stdout redirection, opening a browser. File contents, request bodies
  (as decoded JSON), the client id and the path of an event are inputs.
- Time and timestamps: `time.time()` is an integer number of seconds, and the
  `datetime.now()` text is an input.
- Threads, the watchdog observer, the endless loops and `time.sleep`: one step
  or one pass of a loop is modelled. `/shutdown` stops the server directly
  rather than on a thread of its own.
- The language model calls (`_call_llm_for_prompt`, `think`, `answer`): the
  reply (reasoning, answer, title) is an input. On the server a failing call is
  not modelled; on the client it is `LlmFailed`.
- ColabAgent.Agent.Run: models a model call that returns. An exception from
  `think` or `answer` (the streamed completion) would leave `streaming` and
  `LATEX_COLAB_AGENT_STREAMING` set, as the `index.lock` TypeError does.
- CredentialUrl.CreateCredentialUrl: the 500 answer for any other exception is
  not modelled. Dafny strings hold no lone surrogate, so `quote` never meets an
  unencodable token, and `urlparse`'s ValueError on a bad IPv6 host lies in
  the library, whose result is an input here.
- `urlparse`: its six components are the input of the credential builder.
- The change tracker `LaTeXEnvTracker`: its reported differences are inputs,
  and its saving and streaming of environments into the file are recorded as
  steps only.
- The git and lock operations themselves: their outcomes are inputs. The git
  add, commit and push of `sync_with_overleaf` are not modelled, since their
  failures are only logged and change no modelled state. The same goes for its
  local compilation.
- Whether `index.lock` exists and its removal in `trigger`: these touch only
  the file system. Building its path is modelled, since it raises for a `str`
  or `None` repository path.
- Path normalisation: paths are compared as spelled, so `a/./b`, `a//b` and a
  symbolic link are different paths from `a/b`. `expanduser` is not modelled.
- The change tracker's reads and writes of the LaTeX file between the two
  pushes: with a relative LaTeX path they, too, resolve from the repository
  once the first push has moved there. Only the pushes resolve paths here.
- A second process: the agent and the watcher are separate programs, each
  started by its own `__main__`. The model of each reads and writes the
  environment variables as one process would. A flag that one process sets
  is not seen by the other.
- Package installation and TeX probing (`try_debian_package_installation`,
  `install_*`, `detect_latex_system`, `check_package_paths`,
  `fix_texlive_paths`, `verify_package_installation`, `compile_locally`,
  `open_pdf`, `trigger_compilation`), `setup_overleaf_git`, the FastAPI
  endpoints and `_run_git_command`, and `main`: these are subprocess, network
  or operating-system calls.
- `monitor_remote_changes_git`, which relies on GitPython, and
  `pull_remote_changes`, which calls functions the program does not define.
- standalone_logger.py and Client_example.py are not part of this model.
- Case folding: Python's `lower()` and `IGNORECASE` are modelled on ASCII
  letters only.
- Regular expressions: only the patterns the modelled code uses are written
  out, each as its own function.
- `list(set(...))`: the model fixes that each element occurs once and leaves
  the order open.
- Floating point: a JSON number is a Dafny `real`, and the gif transparency is
  kept as given.
- LlmModels.HintOfEntryIsAtOrBefore: proves that the hint of an entry is that
  entry or an earlier one, not that it is the entry itself. The full statement
  needs every pair of the 32 entries compared, which is too costly to prove.
- LocalProcess.LocalReparse: covers blocks without backslashes whose only line
  breaks are newlines. With other breaks the line-wise fallback and
  `splitlines` disagree (`LocalProcess.FormFeedKeepsStart`). With `%\` in the
  block the counted substitution can fire, and that path is not related to the
  parameters read afterwards.
- ServerProcess: for blocks whose parameter line starts `%\`, the
  substitutions are modelled but not related to the parameters read
  afterwards.

## Findings

| source | as written | input that shows it | evidently intended | confidence | as-written member | corrected member |
|---|---|---|---|---|---|---|
| AgenticLatexGitPush.py:445-464 | branch 1 tests for `! LaTeX Error: File` and `not found`, takes the text after the first `'`, and keeps it only if it ends in `.sty`; the backtick branch after it can never run | ``! LaTeX Error: File `foo.sty' not found.``: the text after `'` is ` not found.`, so nothing is reported | the standard message reports `foo` | not executed | LatexLog.StandardMessageMissed | LatexLog.FixedStandardMessage |
| LatexColabAgent.py:273-282 | after the completed marker, `trigger` builds `Path(self.git_repo_path / ".git/index.lock")` unconditionally; the path defaults to `None` and may be a `str`, and `/` raises TypeError for both, so the second push and the reset of `streaming` and `LATEX_COLAB_AGENT_STREAMING` never happen | `Agent(latexfile, git_repo_path="/home/u/overleaf_repo")` with that repository present: the run pushes once, then raises; the handler ignores every later event and a remote checker in the same process skips every pass | the lock removal runs only for a repository, with the path built as `Path(self.git_repo_path) / ".git/index.lock"`, and every run that finds its files ends the stream | not executed | ColabAgent.StrRepoRunNeverEnds | ColabAgent.FixedRunCompletes |
| LatexColabAgent.py:139-140 | `git_push` enters the repository and only then reads `original_dir = os.getcwd()`, so the `finally` returns to the repository itself and the process stays there | the command line's default `--repo-path ./overleaf_repo` with an absolute LaTeX path: the second push opens `overleaf_repo/<file>` inside `overleaf_repo`, which does not exist, and raises FileNotFoundError; `streaming`, `LATEX_COLAB_AGENT_STREAMING` and `GIT_PUSH_DISABLED` stay set | `original_dir` is read before the `chdir`, so each push returns to where it started and every run that finds its files ends the stream | not executed | ColabAgent.RelativeRepoSecondPushRaises | ColabAgent.FixedRunCompletes |
