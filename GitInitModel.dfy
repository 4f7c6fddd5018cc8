/** The records the git-init tool works on: its input (after schema defaults),
    its result, its error codes, and the outcomes of the three I/O points it
    depends on (path sanitisation, `fs.access` and the child process), which
    the model receives as values instead of performing. */
module GitInitModel {

  datatype Option<T> = None | Some(value: T)

  /** The tool's arguments as the caller sent them: `bare` and `quiet` may be missing. */
  datatype RawInput = RawInput(path: string, initialBranch: Option<string>, bare: Option<bool>, quiet: Option<bool>)

  /** The arguments once the input schema has accepted them. */
  datatype GitInitInput = GitInitInput(path: string, initialBranch: Option<string>, bare: bool, quiet: bool)

  /** The input schema: `path` must be a non-empty string, `initialBranch` is
      optional, and a missing `bare` or `quiet` becomes false. */
  function ApplySchema(raw: RawInput): (r: Option<GitInitInput>)
    ensures r.Some? <==> |raw.path| >= 1
    ensures r.Some? ==> r.value.path == raw.path && r.value.initialBranch == raw.initialBranch
    ensures r.Some? ==> (r.value.bare <==> raw.bare == Some(true)) && (r.value.quiet <==> raw.quiet == Some(true))
  {
    if |raw.path| < 1 then None
    else
      Some(GitInitInput(
        raw.path,
        raw.initialBranch,
        match raw.bare case Some(b) => b case None => false,
        match raw.quiet case Some(q) => q case None => false))
  }

  /** JavaScript truthiness of the optional branch name: absent and `""` are both false. */
  predicate Truthy(branch: Option<string>) {
    branch.Some? && branch.value != []
  }

  datatype GitInitResult = GitInitResult(success: bool, message: string, path: string, gitDirExists: bool)

  /** The `BaseErrorCode`s the tool raises itself, and any other code an
      `McpError` from `sanitizePath` may carry (the tool rethrows it as it is). */
  datatype ErrorCode = ValidationError | Forbidden | InternalError | OtherCode(name: string)

  /** What the tool produces: a result, or a thrown `McpError` with its code and message. */
  datatype Outcome = Ok(result: GitInitResult) | Err(code: ErrorCode, message: string)

  /** What `sanitizePath` did: returned a path, threw an `McpError`, or threw
      anything else (`description` is that error's message, or its string form). */
  datatype SanitizeOutcome =
    | Sanitized(path: string)
    | McpFailure(code: ErrorCode, message: string)
    | OtherFailure(description: string)

  /** What `fs.access` did: resolved, or rejected with an error code such as `ENOENT` and a message. */
  datatype AccessOutcome = Granted | Refused(errno: string, message: string)

  /** What the child process did: exited with status 0 (its two output
      streams), or rejected (its stderr, `""` when absent, and the error message). */
  datatype ExecOutcome = Exited(stdout: string, stderr: string) | Rejected(stderr: string, message: string)

  /** The world the tool talks to, as functions of their arguments:
      `sanitize` is `sanitizePath`; `accessWrite` is `fs.access` with `W_OK`;
      `present` is whether `fs.access` with the default mode resolves; `exec`
      runs a shell command. */
  datatype Env = Env(
    sanitize: string -> SanitizeOutcome,
    accessWrite: string -> AccessOutcome,
    present: string -> bool,
    exec: string -> ExecOutcome)

  /** One call into the world, in the order the tool makes them. */
  datatype Effect = SanitizePath(raw: string) | ProbeParent(dir: string) | RunCommand(command: string) | ProbeMarker(path: string)

  /** Some call in `trace` ran a command. */
  predicate RanCommand(trace: seq<Effect>) {
    exists k :: 0 <= k < |trace| && trace[k].RunCommand?
  }
}
