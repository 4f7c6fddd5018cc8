# git-init tool, modelled in Dafny

This project models `gitInitLogic`, the logic behind the git MCP server's
`git_init` tool. The tool takes a path, an optional initial branch name and
the `bare` and `quiet` flags. Its steps are:

1. It sanitises the path.
2. It checks that the parent directory is writable.
3. It builds a `git init` shell command and runs it.
4. On a normal exit it probes for the new repository and reports success.
5. On a failed run it classifies the error text.

The three I/O points are values in an `Env` record of total functions:
`sanitizePath`, the two `fs.access` calls, and the child process. The
pipeline also returns a trace of the calls it made, in order. The trace lets
the contracts state the short cuts: a failed validation runs no command, and
the marker is probed only after a normal exit.

Files:

- `Text.dfy`: the JavaScript string built-ins the tool uses. These are
  `trim`, `toLowerCase` restricted to ASCII, and `includes`.
- `PosixPath.dfy`: Node's POSIX `path.dirname`, and `path.join` for a
  path in normal form (`NormalForm`: no empty, `.` or `..` segment, and no
  trailing slash unless the path is `/`).
- `GitInitModel.dfy`: the input and its schema defaults, `GitInitResult`,
  the error codes, and the outcomes of the I/O points.
- `GitInitCommand.dfy`: the command builder (a method proved against a
  specification function), the quote escaping of the branch name, and a
  reader for the command. The reader inverts this escaping and is the
  partner of the builder; it does not model how `/bin/sh` reads the line.
- `GitInitOutcome.dfy`: the marker path, the success message, and the ordered
  classification of a failed run, together with a rule-table reference for it.
- `GitInitLogic.dfy`: the validation stage, the run stage and the whole
  pipeline, as methods.

## Model

| member | source | states |
|---|---|---|
| GitInitModel.ApplySchema | src/mcp-server/tools/gitInit/logic.ts:14-19 | The input is accepted exactly when `path` has at least one character. `path` and `initialBranch` pass through unchanged. `bare` and `quiet` are true only when given as true, so a missing flag becomes false. |
| Text.Trim | src/mcp-server/tools/gitInit/logic.ts:113 | The result is the slice of the text from its first non-white-space character to its last. It is empty exactly when the text is all white space. Otherwise it neither starts nor ends with white space. |
| Text.Lower | src/mcp-server/tools/gitInit/logic.ts:127 | Lower-casing keeps the length and lower-cases each character on its own. |
| Text.Contains | src/mcp-server/tools/gitInit/logic.ts:127 | `includes` is true exactly when the pattern occurs at some index of the text. |
| PosixPath.Dirname | src/mcp-server/tools/gitInit/logic.ts:55 | The parent directory is `.`, `/` or `//`, or else a proper prefix of the path that is followed in the path by a slash. |
| PosixPath.Join | src/mcp-server/tools/gitInit/logic.ts:103 | Joining keeps the path as a prefix and the segment as a suffix. It puts exactly one slash between them unless the path is empty or already ends in a slash. |
| PosixPath.DirnameOfJoin | src/mcp-server/tools/gitInit/logic.ts:103 | Take a path in normal form and join a slash-free segment other than `.` and `..` onto it. The parent directory of the result is the path again. |
| GitInitCommand.EscapeQuotes | src/mcp-server/tools/gitInit/logic.ts:84 | Escaping never shortens the name. The escaped name is empty only for an empty name, and it never starts with a quote. |
| GitInitCommand.EscapedQuotesArePreceded | src/mcp-server/tools/gitInit/logic.ts:84 | Every double quote of the escaped name comes right after a backslash. |
| GitInitCommand.UnescapeEscapeQuotes | src/mcp-server/tools/gitInit/logic.ts:84 | Unescaping left to right recovers the branch name exactly, so escaping changes nothing but the inserted backslashes. |
| GitInitCommand.EscapeQuotesAppend | src/mcp-server/tools/gitInit/logic.ts:84 | Escaping works per character: it distributes over concatenation. |
| GitInitCommand.BuildCommand | src/mcp-server/tools/gitInit/logic.ts:74-87 | The string built by successive guarded appends equals the specification `Command`. |
| GitInitCommand.ReadOptionsOfCommand | src/mcp-server/tools/gitInit/logic.ts:74-80 | The command starts with `git init`. It has ` --quiet` exactly when `quiet`, then ` --bare` exactly when `bare`, in that order. After those come the branch argument and the path argument. |
| GitInitCommand.ReadOptionsOf | src/mcp-server/tools/gitInit/logic.ts:74-80 | `git init` and the chosen options, followed by arguments that start with ` -b` or ` "`, read back as exactly those options and arguments. |
| GitInitCommand.BranchArgStart | src/mcp-server/tools/gitInit/logic.ts:81-85 | What follows the options starts with ` -b "` exactly when the branch name is present and non-empty. So an empty name gives no `-b` flag. |
| GitInitCommand.CommandEndsWithPath | src/mcp-server/tools/gitInit/logic.ts:87 | Whatever the options, the command ends with a space, a quote, the sanitised path verbatim, and a quote. |
| GitInitCommand.ReadPathArgOf | src/mcp-server/tools/gitInit/logic.ts:87 | The quoted path argument reads back as the path. |
| GitInitCommand.ReadQuotedEscapeQuotes | src/mcp-server/tools/gitInit/logic.ts:84 | The escaped name followed by a closing quote reads back as the name and the rest of the line, when the name does not end in a backslash. |
| GitInitCommand.CommandRoundTrip | src/mcp-server/tools/gitInit/logic.ts:74-87 | Parsing the built command with the model's reader (the inverse of the escaping) gives back `quiet`, `bare`, the branch name (only when it is non-empty) and the sanitised path. This holds for every branch name that does not end in a backslash. |
| GitInitCommand.CommandDoesNotDetermineBranch | src/mcp-server/tools/gitInit/logic.ts:84-87 | Two different inputs can build the same command. Branch `n\` with a path that is a space, a quote and then `p`, and branch `n" ` with path `p`, both give it. So, when a sanitised path may start with ` "`, the escaping does not make the branch argument unambiguous. |
| GitInitOutcome.MarkerPath | src/mcp-server/tools/gitInit/logic.ts:103 | The marker is the target itself for a bare repository. Otherwise it starts with the target and ends with `.git`. It is exactly `<targetPath>/.git` for a target without a trailing slash and `<targetPath>.git` for an empty target or one ending in a slash. |
| GitInitOutcome.MarkerInsideTarget | src/mcp-server/tools/gitInit/logic.ts:103 | For a target in normal form, the `.git` marker of a non-bare repository lies directly inside the target. |
| GitInitOutcome.SuccessMessage | src/mcp-server/tools/gitInit/logic.ts:113 | The message is never empty. It is the trimmed stdout when stdout has a non-white-space character. Otherwise it is `Initialized empty Git repository in <targetPath>`. |
| GitInitOutcome.ErrorText | src/mcp-server/tools/gitInit/logic.ts:123 | The error text is stderr when that is non-empty, and the error message otherwise. |
| GitInitOutcome.Classify | src/mcp-server/tools/gitInit/logic.ts:127-142 | It returns a success exactly when the lowered text has both `already exists` and `git repository`. That success has the reinitialised message, the path and `gitDirExists = true`. Otherwise the code is FORBIDDEN exactly when the text has `permission denied`, and INTERNAL_ERROR in every other case. Both error messages carry the path and the raw text. |
| GitInitOutcome.ClassifyFollowsRules | src/mcp-server/tools/gitInit/logic.ts:127-142 | `Classify` agrees with an ordered table of pattern rules in which the first matching rule decides. |
| GitInitOutcome.ExistingRepositoryWinsOverPermission | src/mcp-server/tools/gitInit/logic.ts:127-139 | A text that matches both the reinitialise rule and the permission rule is a success. |
| GitInitOutcome.ClassifyIgnoresCase | src/mcp-server/tools/gitInit/logic.ts:127-137 | Texts that lower-case to the same string are classified alike. |
| GitInitLogic.ParentAccessError | src/mcp-server/tools/gitInit/logic.ts:58-63 | A failed parent check is always a VALIDATION_ERROR. With `ENOENT` it says the parent does not exist. With any other code it says the parent cannot be accessed and includes the access error's message. |
| GitInitLogic.ValidatePath | src/mcp-server/tools/gitInit/logic.ts:47-70 | Validation stops exactly when sanitisation fails or the parent is not writable, and it runs no command. An `McpError` is rethrown unchanged. Any other sanitiser error becomes VALIDATION_ERROR `Invalid path: …`. Access failures map as in `ParentAccessError`. On success it passes on the sanitised path, after exactly one `sanitizePath` call and one parent probe (trace `[SanitizePath, ProbeParent]`). |
| GitInitLogic.RunInit | src/mcp-server/tools/gitInit/logic.ts:72-143 | The stage runs exactly the specified command. On a normal exit it probes exactly the marker path and returns a success with the success message, the path, and `gitDirExists` equal to the probe's answer. On a failed run it returns the classification of the error text and probes nothing. |
| GitInitLogic.GitInit | src/mcp-server/tools/gitInit/logic.ts:40-144 | A command is run exactly when validation passes. Every validation failure is an error, with at most two calls made. Every success has `success = true` and the sanitised path. For each case the contract gives the exact sequence of calls and the exact outcome. |

## Left out

- Logging: every `logger` call is a side effect only. The `quiet` checks at lines 94 and 98 only gate logging, so `quiet` affects nothing but the command.
- Schema parsing: Zod's internals are not modelled, only the record it yields. A value of the wrong type is outside the model.
- `sanitizePath`: its source is not part of this model. It is an arbitrary function from the raw path to a path, an `McpError`, or another error.
- I/O effects: `fs.access`, the child process and the shell are arbitrary functions of their argument. Their effects on the file system and the asynchronous suspension are not modelled. A missing error message is written as the empty string.
- `Text.Lower`: lower-cases ASCII letters only, not the full Unicode mapping of `toLowerCase`.
- `PosixPath.Join`: joins without Node's `path.normalize` step, so it matches `path.join` only for a path in normal form (`NormalForm`) and a segment other than `.` and `..`. `DirnameOfJoin` and `MarkerInsideTarget` therefore require a target in normal form.
- `GitInitCommand.CommandRoundTrip`: it is about the model's reader only, which undoes `\"` and nothing else, and it requires that the branch name not end in a backslash. `CommandDoesNotDetermineBranch` shows two inputs with the same command; its collision needs a sanitised path that starts with ` "`, not with `/`; for absolute paths the model states neither a collision nor its absence.
- Shell reading: the command runs under `/bin/sh`, which inside double quotes reads `\\` as one backslash and expands `$` and backticks. Under sh a branch name that contains `$`, a backtick, or a backslash that comes before another backslash, a quote, `$`, a backtick or a newline, or that ends the name, already breaks or changes its argument, and the path is not escaped at all. The model makes no claim about how sh splits the command.
- Error details: every `McpError` the tool throws also carries a details object (`context` and `operation`, and `originalError` at lines 69, 138 and 142). `Err(code, message)` keeps only the code and the message.
- `src/mcp-server/McpRequestHandlers.ts` is not part of this model: it holds no logic of the tool.
