/** The git-init tool's pipeline (logic.ts lines 40-144): path sanitisation
    and the parent-directory check, then the command, its run, the marker
    probe and the interpretation of the outcome. Each call the tool makes
    into the world is recorded, in order, in a trace. */
module GitInitLogic {
  import opened Text
  import opened PosixPath
  import opened GitInitModel
  import opened GitInitCommand
  import opened GitInitOutcome

  /** The validation error for a parent directory the process cannot write in. */
  function ParentAccessError(parentDir: string, errno: string, message: string): (r: Outcome)
    ensures r.Err? && r.code == ValidationError
    ensures errno == "ENOENT" ==> r.message == "Parent directory does not exist: " + parentDir
    ensures errno != "ENOENT" ==> r.message == "Cannot access parent directory: " + parentDir + ". Error: " + message
  {
    if errno == "ENOENT" then Err(ValidationError, "Parent directory does not exist: " + parentDir)
    else Err(ValidationError, "Cannot access parent directory: " + parentDir + ". Error: " + message)
  }

  /** The validation stage passes: `sanitizePath` returns a path whose parent directory is writable. */
  predicate Validated(input: GitInitInput, env: Env) {
    var s := env.sanitize(input.path);
    s.Sanitized? && env.accessWrite(Dirname(s.path)).Granted?
  }

  /** The validation stage (lines 47-70): `sanitizePath`, then the write check
      on the parent directory. It either stops with an error or gives the
      sanitised path; it never runs a command. */
  method ValidatePath(input: GitInitInput, env: Env) returns (stop: Option<Outcome>, targetPath: string, trace: seq<Effect>)
    ensures |trace| >= 1 && trace[0] == SanitizePath(input.path) && !RanCommand(trace)
    ensures stop.None? <==> Validated(input, env)
    ensures stop.Some? ==> stop.value.Err? && |trace| <= 2
    ensures stop.None? ==>
      (targetPath == env.sanitize(input.path).path
       && trace == [SanitizePath(input.path), ProbeParent(Dirname(targetPath))])
    ensures env.sanitize(input.path).McpFailure? ==>
      trace == [SanitizePath(input.path)]
      && stop == Some(Err(env.sanitize(input.path).code, env.sanitize(input.path).message))
    ensures env.sanitize(input.path).OtherFailure? ==>
      trace == [SanitizePath(input.path)]
      && stop == Some(Err(ValidationError, "Invalid path: " + env.sanitize(input.path).description))
    ensures env.sanitize(input.path).Sanitized? && env.accessWrite(Dirname(env.sanitize(input.path).path)).Refused? ==>
      var parentDir := Dirname(env.sanitize(input.path).path);
      var refusal := env.accessWrite(parentDir);
      trace == [SanitizePath(input.path), ProbeParent(parentDir)]
      && stop == Some(ParentAccessError(parentDir, refusal.errno, refusal.message))
  {
    trace := [SanitizePath(input.path)];
    targetPath := "";
    match env.sanitize(input.path) {
      case McpFailure(code, message) =>
        // an McpError is rethrown as it is
        return Some(Err(code, message)), targetPath, trace;
      case OtherFailure(description) =>
        return Some(Err(ValidationError, "Invalid path: " + description)), targetPath, trace;
      case Sanitized(p) =>
        targetPath := p;
    }
    var parentDir := Dirname(targetPath);
    trace := trace + [ProbeParent(parentDir)];
    match env.accessWrite(parentDir) {
      case Refused(errno, message) =>
        return Some(ParentAccessError(parentDir, errno, message)), targetPath, trace;
      case Granted =>
        stop := None;
    }
  }

  /** The run stage (lines 72-143): build and run the command, then probe the
      marker on a normal exit or classify the failure. */
  method RunInit(input: GitInitInput, targetPath: string, env: Env) returns (r: Outcome, trace: seq<Effect>)
    ensures |trace| >= 1 && trace[0] == RunCommand(Command(input, targetPath))
    ensures r.Ok? ==> r.result.success && r.result.path == targetPath
    ensures env.exec(Command(input, targetPath)).Exited? ==>
      var marker := MarkerPath(input.bare, targetPath);
      trace == [RunCommand(Command(input, targetPath)), ProbeMarker(marker)]
      && r == Ok(GitInitResult(true, SuccessMessage(env.exec(Command(input, targetPath)).stdout, targetPath), targetPath, env.present(marker)))
    ensures env.exec(Command(input, targetPath)).Rejected? ==>
      var failure := env.exec(Command(input, targetPath));
      trace == [RunCommand(Command(input, targetPath))]
      && r == Classify(ErrorText(failure.stderr, failure.message), targetPath)
  {
    var command := BuildCommand(input, targetPath);
    trace := [RunCommand(command)];
    match env.exec(command) {
      case Exited(stdout, _) =>
        var gitDirPath := MarkerPath(input.bare, targetPath);
        trace := trace + [ProbeMarker(gitDirPath)];
        var gitDirExists := false;
        if env.present(gitDirPath) {
          gitDirExists := true;
        }
        r := Ok(GitInitResult(true, SuccessMessage(stdout, targetPath), targetPath, gitDirExists));
      case Rejected(stderr, message) =>
        r := Classify(ErrorText(stderr, message), targetPath);
    }
  }

  /** Runs the tool on `input` against `env`. A failed validation stops the
      pipeline before any command is built or run; otherwise the command is
      run, and a normal exit is a success whose marker flag is the probe's
      answer while a failed run is classified by its error text. */
  method GitInit(input: GitInitInput, env: Env) returns (r: Outcome, trace: seq<Effect>)
    ensures |trace| >= 1 && trace[0] == SanitizePath(input.path)
    ensures RanCommand(trace) <==> Validated(input, env)
    ensures !Validated(input, env) ==> r.Err? && |trace| <= 2
    ensures r.Ok? ==> r.result.success && env.sanitize(input.path).Sanitized? && r.result.path == env.sanitize(input.path).path
    ensures env.sanitize(input.path).McpFailure? ==>
      trace == [SanitizePath(input.path)]
      && r == Err(env.sanitize(input.path).code, env.sanitize(input.path).message)
    ensures env.sanitize(input.path).OtherFailure? ==>
      trace == [SanitizePath(input.path)]
      && r == Err(ValidationError, "Invalid path: " + env.sanitize(input.path).description)
    ensures env.sanitize(input.path).Sanitized? && env.accessWrite(Dirname(env.sanitize(input.path).path)).Refused? ==>
      var parentDir := Dirname(env.sanitize(input.path).path);
      var refusal := env.accessWrite(parentDir);
      trace == [SanitizePath(input.path), ProbeParent(parentDir)]
      && r == ParentAccessError(parentDir, refusal.errno, refusal.message)
    ensures Validated(input, env) && env.exec(Command(input, env.sanitize(input.path).path)).Exited? ==>
      var targetPath := env.sanitize(input.path).path;
      var command := Command(input, targetPath);
      var marker := MarkerPath(input.bare, targetPath);
      trace == [SanitizePath(input.path), ProbeParent(Dirname(targetPath)), RunCommand(command), ProbeMarker(marker)]
      && r == Ok(GitInitResult(true, SuccessMessage(env.exec(command).stdout, targetPath), targetPath, env.present(marker)))
    ensures Validated(input, env) && env.exec(Command(input, env.sanitize(input.path).path)).Rejected? ==>
      var targetPath := env.sanitize(input.path).path;
      var command := Command(input, targetPath);
      var failure := env.exec(command);
      trace == [SanitizePath(input.path), ProbeParent(Dirname(targetPath)), RunCommand(command)]
      && r == Classify(ErrorText(failure.stderr, failure.message), targetPath)
  {
    var stop, targetPath, validation := ValidatePath(input, env);
    if stop.Some? {
      return stop.value, validation;
    }
    var run;
    r, run := RunInit(input, targetPath, env);
    trace := validation + run;
    assert trace[2] == run[0];
  }
}
