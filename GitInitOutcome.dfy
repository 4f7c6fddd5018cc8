/** Interpretation of the `git init` process outcome (logic.ts lines
    102-143): the repository-marker path probed after a successful run, the
    success message, and the ordered text classification of a failed run. */
module GitInitOutcome {
  import opened Text
  import opened PosixPath
  import opened GitInitModel

  /** Where the repository must appear: the target itself for a bare
      repository, its `.git` child otherwise. */
  function MarkerPath(bare: bool, targetPath: string): (m: string)
    ensures bare ==> m == targetPath
    ensures !bare ==> StartsWith(m, targetPath) && EndsWith(m, ".git")
    ensures !bare && targetPath != [] && targetPath[|targetPath| - 1] != '/' ==> m == targetPath + "/.git"
    ensures !bare && (targetPath == [] || targetPath[|targetPath| - 1] == '/') ==> m == targetPath + ".git"
  {
    if bare then targetPath
    else
      var m := Join(targetPath, ".git");
      assert m[..|targetPath|] == targetPath && m[|m| - 4..] == ".git";
      m
  }

  /** For a target path in normal form, the `.git` marker of a non-bare
      repository lies directly inside the target. */
  lemma MarkerInsideTarget(targetPath: string)
    requires NormalForm(targetPath)
    ensures Dirname(MarkerPath(false, targetPath)) == targetPath
  {
    DirnameOfJoin(targetPath, ".git");
  }

  /** The message used when the process printed nothing but white space. */
  function InitializedMessage(targetPath: string): string {
    "Initialized empty Git repository in " + targetPath
  }

  /** `stdout.trim() || "Initialized empty Git repository in <targetPath>"`:
      the printed text without its surrounding white space, or the default
      message when nothing else was printed. The message is never empty. */
  function SuccessMessage(stdout: string, targetPath: string): (msg: string)
    ensures msg != []
    ensures (forall k :: 0 <= k < |stdout| ==> IsWhiteSpace(stdout[k])) ==> msg == InitializedMessage(targetPath)
    ensures (exists k :: 0 <= k < |stdout| && !IsWhiteSpace(stdout[k])) ==>
      msg == Trim(stdout) && !IsWhiteSpace(msg[0]) && !IsWhiteSpace(msg[|msg| - 1])
  {
    var t := Trim(stdout);
    if t != [] then t else InitializedMessage(targetPath)
  }

  /** `error.stderr || error.message || ''`: the process's stderr when it is
      non-empty, its error message otherwise. */
  function ErrorText(stderr: string, message: string): (t: string)
    ensures stderr != [] ==> t == stderr
    ensures stderr == [] ==> t == message
  {
    if stderr != [] then stderr else message
  }

  /** The text of a failed run means a repository was already there. */
  predicate MentionsExisting(lowered: string) {
    Contains(lowered, "already exists") && Contains(lowered, "git repository")
  }

  /** The result reported when the repository already existed. */
  function ReinitializedResult(targetPath: string): GitInitResult {
    GitInitResult(true, "Reinitialized existing Git repository in " + targetPath, targetPath, true)
  }

  /** Classifies a failed run by its error text, checked case-insensitively in
      a fixed order: an existing repository is a success, a permission denial
      is FORBIDDEN, and anything else is INTERNAL_ERROR; both errors carry the
      path and the raw text. */
  function Classify(errorText: string, targetPath: string): (r: Outcome)
    ensures r.Ok? <==> MentionsExisting(Lower(errorText))
    ensures r.Ok? ==> r.result == ReinitializedResult(targetPath)
    ensures r.Err? ==> (r.code == Forbidden <==> Contains(Lower(errorText), "permission denied"))
    ensures r.Err? && r.code == Forbidden ==>
      r.message == "Permission denied to initialize repository at: " + targetPath + ". Error: " + errorText
    ensures r.Err? && r.code != Forbidden ==>
      r.code == InternalError && r.message == "Failed to initialize repository at: " + targetPath + ". Error: " + errorText
  {
    var lowered := Lower(errorText);
    if Contains(lowered, "already exists") && Contains(lowered, "git repository") then
      Ok(ReinitializedResult(targetPath))
    else if Contains(lowered, "permission denied") then
      Err(Forbidden, "Permission denied to initialize repository at: " + targetPath + ". Error: " + errorText)
    else
      Err(InternalError, "Failed to initialize repository at: " + targetPath + ". Error: " + errorText)
  }

  /** The three things the classification can decide. */
  datatype Verdict = Reinitialized | PermissionDenied | Unrecognized

  /** A classification rule: when every pattern occurs in the lowered text, the verdict applies. */
  datatype Rule = Rule(patterns: seq<string>, verdict: Verdict)

  /** The classification as an ordered table, the first matching rule deciding. */
  const ClassificationRules: seq<Rule> := [
    Rule(["already exists", "git repository"], Reinitialized),
    Rule(["permission denied"], PermissionDenied)
  ]

  /** Every pattern of `patterns` occurs in `text`. */
  predicate MatchesAll(text: string, patterns: seq<string>) {
    forall k :: 0 <= k < |patterns| ==> Contains(text, patterns[k])
  }

  /** The index of the first rule that matches `text`, or `|rules|` when none does. */
  function FirstMatch(rules: seq<Rule>, text: string): (i: nat)
    ensures i <= |rules|
    ensures forall j :: 0 <= j < i ==> !MatchesAll(text, rules[j].patterns)
    ensures i < |rules| ==> MatchesAll(text, rules[i].patterns)
  {
    if rules == [] then 0
    else if MatchesAll(text, rules[0].patterns) then 0
    else 1 + FirstMatch(rules[1..], text)
  }

  /** The verdict of the first matching rule, `Unrecognized` when none matches. */
  function RuleVerdict(rules: seq<Rule>, text: string): Verdict {
    var i := FirstMatch(rules, text);
    if i < |rules| then rules[i].verdict else Unrecognized
  }

  /** The verdict an outcome of `Classify` stands for. */
  function VerdictOf(r: Outcome): Verdict {
    match r
    case Ok(_) => Reinitialized
    case Err(code, _) => if code == Forbidden then PermissionDenied else Unrecognized
  }

  /** `Classify` decides exactly as the ordered rule table does on the lowered error text. */
  lemma ClassifyFollowsRules(errorText: string, targetPath: string)
    ensures VerdictOf(Classify(errorText, targetPath)) == RuleVerdict(ClassificationRules, Lower(errorText))
  {
    var lowered := Lower(errorText);
    var rules := ClassificationRules;
    MatchesAllPair(lowered, "already exists", "git repository");
    MatchesAllOne(lowered, "permission denied");
    if !MentionsExisting(lowered) {
      assert rules[1..] == [rules[1]];
      if !Contains(lowered, "permission denied") {
        assert rules[1..][1..] == [];
      }
    }
  }

  /** A rule with two patterns matches when both occur. */
  lemma MatchesAllPair(text: string, a: string, b: string)
    ensures MatchesAll(text, [a, b]) <==> Contains(text, a) && Contains(text, b)
  {
    assert [a, b][0] == a && [a, b][1] == b;
  }

  /** A rule with one pattern matches when it occurs. */
  lemma MatchesAllOne(text: string, a: string)
    ensures MatchesAll(text, [a]) <==> Contains(text, a)
  {
    assert [a][0] == a;
  }

  /** The first match wins: a text that reports both an existing repository
      and a permission denial is classified as a success. */
  lemma ExistingRepositoryWinsOverPermission(errorText: string, targetPath: string)
    requires MentionsExisting(Lower(errorText)) && Contains(Lower(errorText), "permission denied")
    ensures Classify(errorText, targetPath) == Ok(ReinitializedResult(targetPath))
  {
  }

  /** The classification ignores the case of ASCII letters: texts that lower
      to the same string get the same kind of outcome. */
  lemma ClassifyIgnoresCase(a: string, b: string, targetPath: string)
    requires Lower(a) == Lower(b)
    ensures VerdictOf(Classify(a, targetPath)) == VerdictOf(Classify(b, targetPath))
  {
  }
}
