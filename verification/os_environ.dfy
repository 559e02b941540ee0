/**
 * The process environment (`os.environ`) through which the watcher, the
 * remote checker and the agent signal each other: `GIT_PUSH_DISABLED`,
 * `LATEX_PULLED` and `LATEX_COLAB_AGENT_STREAMING` hold the strings
 * `"True"` and `"False"`. The agent and the watcher are started as
 * separate programs, and each has its own environment; the signalling
 * between them that these flags are read for holds only when both run in
 * one process, which is what sharing one `Environ` models.
 */
module OsEnviron {
  const GitPushDisabled := "GIT_PUSH_DISABLED"
  const LatexPulled := "LATEX_PULLED"
  const AgentStreaming := "LATEX_COLAB_AGENT_STREAMING"

  /** The variables of the running process. */
  class Environ {
    var vars: map<string, string>

    constructor(initial: map<string, string>)
      ensures vars == initial
    {
      vars := initial;
    }

    /** `os.environ.get(key, False) == 'True'`: an unset variable compares unequal. */
    predicate IsTrue(key: string)
      reads this
    {
      key in vars && vars[key] == "True"
    }

    /** `os.environ[key] = value`. */
    method Set(key: string, value: string)
      modifies this
      ensures vars == old(vars)[key := value]
      ensures IsTrue(key) <==> value == "True"
    {
      vars := vars[key := value];
    }
  }
}
