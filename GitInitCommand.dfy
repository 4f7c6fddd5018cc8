/** Construction of the `git init` shell command (logic.ts lines 74-87),
    the quote escaping of the branch name, and a reader for the command
    line that inverts that escaping (it is not a model of how a shell
    splits the line). */
module GitInitCommand {
  import opened Text
  import opened GitInitModel

  /** `branch.replace(/"/g, '\\"')`: a backslash before every double quote.
      The result is empty only for an empty name and never starts with a quote. */
  function EscapeQuotes(branch: string): (e: string)
    ensures |e| >= |branch|
    ensures e == [] || e[0] != '"'
  {
    if branch == [] then []
    else
      (if branch[0] == '"' then ['\\', '"'] else [branch[0]]) + EscapeQuotes(branch[1..])
  }

  /** The character at `i`, when it is a double quote, comes right after a backslash. */
  predicate QuoteEscapedAt(e: string, i: nat)
    requires i < |e|
  {
    e[i] == '"' ==> 0 < i && e[i - 1] == '\\'
  }

  /** Every double quote of the escaped branch name comes right after a backslash. */
  lemma {:induction false} EscapedQuotesArePreceded(branch: string)
    ensures forall i :: 0 <= i < |EscapeQuotes(branch)| ==> QuoteEscapedAt(EscapeQuotes(branch), i)
  {
    if branch != [] {
      var tail := EscapeQuotes(branch[1..]);
      var piece := if branch[0] == '"' then ['\\', '"'] else [branch[0]];
      assert EscapeQuotes(branch) == piece + tail;
      EscapedQuotesArePreceded(branch[1..]);
      forall i | 0 <= i < |piece + tail| ensures QuoteEscapedAt(piece + tail, i) {
        if i >= |piece| {
          assert QuoteEscapedAt(tail, i - |piece|);
        }
      }
    }
  }

  /** Undoes the escaping: scanning left to right, `\"` becomes `"` and every other character is kept. */
  function Unescape(s: string): string {
    if s == [] then []
    else if |s| >= 2 && s[0] == '\\' && s[1] == '"' then ['"'] + Unescape(s[2..])
    else [s[0]] + Unescape(s[1..])
  }

  /** Escaping changes nothing but the inserted backslashes: unescaping recovers the branch name. */
  lemma {:induction false} UnescapeEscapeQuotes(branch: string)
    ensures Unescape(EscapeQuotes(branch)) == branch
  {
    if branch != [] {
      var tail := EscapeQuotes(branch[1..]);
      UnescapeEscapeQuotes(branch[1..]);
      if branch[0] == '"' {
        assert EscapeQuotes(branch) == ['\\', '"'] + tail;
        assert (['\\', '"'] + tail)[2..] == tail;
      } else {
        assert EscapeQuotes(branch) == [branch[0]] + tail;
        assert ([branch[0]] + tail)[1..] == tail;
      }
    }
  }

  /** ` --quiet` when `quiet` is set. */
  function QuietArg(quiet: bool): string {
    if quiet then " --quiet" else ""
  }

  /** ` --bare` when `bare` is set. */
  function BareArg(bare: bool): string {
    if bare then " --bare" else ""
  }

  /** ` -b "<name>"` with the quotes of the name escaped, when a non-empty name is given. */
  function BranchArg(branch: Option<string>): string {
    if Truthy(branch) then " -b \"" + EscapeQuotes(branch.value) + "\"" else ""
  }

  /** ` "<path>"`: the sanitised path, quoted and otherwise verbatim. */
  function PathArg(targetPath: string): string {
    " \"" + targetPath + "\""
  }

  /** The `git init` command for `input` and the sanitised `targetPath`. */
  function Command(input: GitInitInput, targetPath: string): string {
    "git init" + QuietArg(input.quiet) + BareArg(input.bare) + BranchArg(input.initialBranch) + PathArg(targetPath)
  }

  /** Builds the command string by successive appends, as the tool does. */
  method BuildCommand(input: GitInitInput, targetPath: string) returns (command: string)
    ensures command == Command(input, targetPath)
  {
    command := "git init";
    if input.quiet {
      command := command + " --quiet";
    }
    if input.bare {
      command := command + " --bare";
    }
    if Truthy(input.initialBranch) {
      command := command + (" -b \"" + EscapeQuotes(input.initialBranch.value) + "\"");
    }
    command := command + (" \"" + targetPath + "\"");
  }

  /** Reads `git init` and the ` --quiet` and ` --bare` options off the front
      of a command; the rest of the line is returned with them. */
  function ReadOptions(c: string): Option<(bool, bool, string)> {
    if !StartsWith(c, "git init") then None
    else
      var s0 := c[8..];
      var quiet := StartsWith(s0, " --quiet");
      var s1 := if quiet then s0[8..] else s0;
      var bare := StartsWith(s1, " --bare");
      Some((quiet, bare, if bare then s1[7..] else s1))
  }

  /** What may follow the options: a space, then `-b` or a quote. */
  predicate ArgumentsStart(t: string) {
    |t| >= 3 && t[0] == ' ' && (t[1] == '"' || (t[1] == '-' && t[2] == 'b'))
  }

  /** The part after the options starts with ` -b "` exactly when there is a
      branch argument, and otherwise with the quoted path. */
  lemma BranchArgStart(branch: Option<string>, targetPath: string)
    ensures var t := BranchArg(branch) + PathArg(targetPath);
      ArgumentsStart(t) && (StartsWith(t, " -b \"") <==> Truthy(branch))
  {
    var p := PathArg(targetPath);
    if Truthy(branch) {
      var flag, e := " -b \"", EscapeQuotes(branch.value);
      AppendAssoc(flag + e, "\"", p);
      AppendAssoc(flag, e, "\"" + p);
      StartsWithAppend(flag, e + ("\"" + p));
    } else {
      assert BranchArg(branch) + p == p;
      DiffersAt(p, " -b \"", 1);
    }
  }

  /** `git init`, the options and then arguments of the expected form read back as those options. */
  lemma ReadOptionsOf(quiet: bool, bare: bool, t: string)
    requires ArgumentsStart(t)
    ensures ReadOptions("git init" + (QuietArg(quiet) + (BareArg(bare) + t))) == Some((quiet, bare, t))
  {
    var s1 := BareArg(bare) + t;
    var s0 := QuietArg(quiet) + s1;
    StartsWithAppend("git init", s0);
    if bare {
      StartsWithAppend(" --bare", t);
    } else {
      assert s1 == t;
      if t[1] == '"' { DiffersAt(t, " --bare", 1); } else { DiffersAt(t, " --bare", 2); }
    }
    if quiet {
      StartsWithAppend(" --quiet", s1);
    } else {
      assert s0 == s1;
      if bare {
        assert s1[3] == 'b';
        DiffersAt(s1, " --quiet", 3);
      } else if t[1] == '"' {
        DiffersAt(t, " --quiet", 1);
      } else {
        DiffersAt(t, " --quiet", 2);
      }
    }
  }

  /** The options are read back exactly, whatever the branch name and path:
      ` --quiet` is there exactly when `quiet`, ` --bare` exactly when `bare`,
      in that order, and what follows them is the branch argument and the path argument. */
  lemma ReadOptionsOfCommand(input: GitInitInput, targetPath: string)
    ensures ReadOptions(Command(input, targetPath))
      == Some((input.quiet, input.bare, BranchArg(input.initialBranch) + PathArg(targetPath)))
  {
    var t := BranchArg(input.initialBranch) + PathArg(targetPath);
    BranchArgStart(input.initialBranch, targetPath);
    ReadOptionsOf(input.quiet, input.bare, t);
    var g, q, b, br, p := "git init", QuietArg(input.quiet), BareArg(input.bare), BranchArg(input.initialBranch), PathArg(targetPath);
    AppendAssoc(g + q + b, br, p);
    AppendAssoc(g + q, b, t);
    AppendAssoc(g, q, b + t);
  }

  /** The path argument closes the command, quoted and verbatim, whatever the options. */
  lemma CommandEndsWithPath(input: GitInitInput, targetPath: string)
    ensures EndsWith(Command(input, targetPath), PathArg(targetPath))
  {
    var c := Command(input, targetPath);
    var front := "git init" + QuietArg(input.quiet) + BareArg(input.bare) + BranchArg(input.initialBranch);
    assert c == front + PathArg(targetPath);
  }

  /** The inverse of the escaping for a quoted word, read from just after
      its opening quote: `\"` stands for `"`, and the first `"` on its own
      closes the word. Unlike a shell it gives no meaning to `\\`, `$` or
      backticks.
      The result is the word's value and what follows the closing quote. */
  function ReadQuoted(s: string): (r: Option<(string, string)>)
  {
    if s == [] then None
    else if s[0] == '"' then Some(([], s[1..]))
    else if |s| >= 2 && s[0] == '\\' && s[1] == '"' then
      match ReadQuoted(s[2..])
      case None => None
      case Some(w) => Some((['"'] + w.0, w.1))
    else
      match ReadQuoted(s[1..])
      case None => None
      case Some(w) => Some(([s[0]] + w.0, w.1))
  }

  /** The command line as a reader would take it apart. */
  datatype CommandLine = CommandLine(quiet: bool, bare: bool, branch: Option<string>, path: string)

  /** The final argument: ` "`, the path, and a closing `"` that ends the line. */
  function ReadPathArg(s: string): Option<string> {
    if |s| >= 3 && s[..2] == " \"" && s[|s| - 1] == '"' then Some(s[2..|s| - 1]) else None
  }

  /** Reads back the options and arguments of a command of the form the tool builds. */
  function ParseCommand(c: string): Option<CommandLine> {
    match ReadOptions(c)
    case None => None
    case Some(o) =>
      if StartsWith(o.2, " -b \"") then
        match ReadQuoted(o.2[5..])
        case None => None
        case Some(w) =>
          match ReadPathArg(w.1)
          case None => None
          case Some(p) => Some(CommandLine(o.0, o.1, Some(w.0), p))
      else
        match ReadPathArg(o.2)
        case None => None
        case Some(p) => Some(CommandLine(o.0, o.1, None, p))
  }

  /** An escaped branch name followed by a quote reads back as the name,
      unless the name ends in a backslash (which then escapes the closing quote). */
  lemma {:induction false} ReadQuotedEscapeQuotes(branch: string, rest: string)
    requires branch == [] || branch[|branch| - 1] != '\\'
    ensures ReadQuoted(EscapeQuotes(branch) + "\"" + rest) == Some((branch, rest))
  {
    var s := EscapeQuotes(branch) + "\"" + rest;
    if branch == [] {
      assert s == "\"" + rest;
      assert s[1..] == rest;
    } else {
      var e := EscapeQuotes(branch[1..]);
      var tail := e + "\"" + rest;
      ReadQuotedEscapeQuotes(branch[1..], rest);
      assert tail[0] != '"' || branch[1..] == [] by {
        if branch[1..] != [] {
          assert |e| > 0 && tail[0] == e[0];
        }
      }
      if branch[0] == '"' {
        assert s == ['\\', '"'] + tail;
        assert s[2..] == tail;
        assert ['"'] + branch[1..] == branch;
      } else {
        assert s == [branch[0]] + tail;
        assert s[1..] == tail;
        assert s[0] == branch[0] && s[1] == tail[0];
        assert branch[1..] == [] ==> branch[0] != '\\';
        assert [branch[0]] + branch[1..] == branch;
      }
    }
  }

  /** Reading the built command back gives exactly the input's options, the
      branch name (when one is given) and the sanitised path, for every
      branch name that does not end in a backslash. */
  lemma CommandRoundTrip(input: GitInitInput, targetPath: string)
    requires Truthy(input.initialBranch) ==> input.initialBranch.value[|input.initialBranch.value| - 1] != '\\'
    ensures ParseCommand(Command(input, targetPath))
      == Some(CommandLine(input.quiet, input.bare, if Truthy(input.initialBranch) then input.initialBranch else None, targetPath))
  {
    ReadOptionsOfCommand(input, targetPath);
    BranchArgStart(input.initialBranch, targetPath);
    var p := PathArg(targetPath);
    ReadPathArgOf(targetPath);
    if Truthy(input.initialBranch) {
      var b := input.initialBranch.value;
      var e := EscapeQuotes(b);
      AppendAssoc(" -b \"" + e, "\"", p);
      AppendAssoc(" -b \"", e, "\"" + p);
      AppendAssoc(e, "\"", p);
      StartsWithAppend(" -b \"", e + "\"" + p);
      ReadQuotedEscapeQuotes(b, p);
    } else {
      assert BranchArg(input.initialBranch) + p == p;
    }
  }

  /** The quoted path argument reads back as the path. */
  lemma ReadPathArgOf(targetPath: string)
    ensures ReadPathArg(PathArg(targetPath)) == Some(targetPath)
  {
    var p := PathArg(targetPath);
    assert p[..2] == " \"" && p[2..|p| - 1] == targetPath;
  }

  /** Escaping works character by character, so it distributes over concatenation. */
  lemma {:induction false} EscapeQuotesAppend(a: string, b: string)
    ensures EscapeQuotes(a + b) == EscapeQuotes(a) + EscapeQuotes(b)
  {
    if a == [] {
      assert a + b == b;
    } else {
      assert (a + b)[0] == a[0] && (a + b)[1..] == a[1..] + b;
      EscapeQuotesAppend(a[1..], b);
      var piece := if a[0] == '"' then ['\\', '"'] else [a[0]];
      AppendAssoc(piece, EscapeQuotes(a[1..]), EscapeQuotes(b));
    }
  }

  /** The escaping does not make the command determine its branch name: for
      every name, options and path, the name followed by a backslash and the
      path prefixed with ` "` give the same command as the name followed by a
      quote and a space with the path itself. */
  lemma CommandDoesNotDetermineBranch(input: GitInitInput, name: string, targetPath: string)
    ensures Command(input.(initialBranch := Some(name + "\\")), " \"" + targetPath)
         == Command(input.(initialBranch := Some(name + "\" ")), targetPath)
  {
    var e := EscapeQuotes(name);
    EscapeQuotesAppend(name, "\\");
    assert EscapeQuotes("\\") == "\\";
    EscapeQuotesAppend(name, "\" ");
    assert EscapeQuotes("\" ") == "\\\" " by {
      assert EscapeQuotes(" ") == " ";
    }
    assert " \"" == " " + "\"";
    assert "\\\" " == "\\" + "\"" + " ";
    assert BranchArg(Some(name + "\\")) == (" -b \"" + (e + "\\")) + "\"";
    assert BranchArg(Some(name + "\" ")) == (" -b \"" + (e + "\\\" ")) + "\"";
    SameArguments(" -b \"", e, "\\", "\"", " ", targetPath);
    var front := "git init" + QuietArg(input.quiet) + BareArg(input.bare);
    AppendAssoc(front, BranchArg(Some(name + "\\")), PathArg(" \"" + targetPath));
    AppendAssoc(front, BranchArg(Some(name + "\" ")), PathArg(targetPath));
  }

  /** The rearrangement behind the collision, over arbitrary pieces: with `b`
      a backslash, `q` a quote and `sp` a space, both argument tails spell
      `flag e b q sp q sp q p q`. */
  lemma SameArguments(flag: string, e: string, b: string, q: string, sp: string, p: string)
    ensures ((flag + (e + b)) + q) + (((sp + q) + (sp + q + p)) + q)
         == ((flag + (e + (b + q + sp))) + q) + (((sp + q) + p) + q)
  {
  }
}
