/**
 * The git wrapper: environment validation, the commit call and the
 * staged-file listing. A git process is an oracle: given the argument vector
 * it reports how the process ended, or that no `git` executable exists.
 */
module GitOperations {
  import opened Wrappers
  import opened PyStr

  /** How a child process ended: its exit code and captured output, or that the executable is missing. */
  datatype Process = Completed(code: int, stdout: string, stderr: string) | NotFound

  const NotARepository := "Not in a git repository. Please run this command from within a git repository."
  const NothingStaged := "No staged changes found. Use 'git add <file>' to stage changes before committing."
  const CommitFailedPrefix := "Git commit failed: "
  const GitMissing := "Git not found. Please ensure git is installed."

  /** `git diff --cached --quiet` signals staged changes by a non-zero code; a missing git means none. */
  function HasStagedChanges(quietDiff: Process): (r: bool)
    ensures r <==> quietDiff.Completed? && quietDiff.code != 0
  {
    match quietDiff
    case Completed(code, _, _) => code != 0
    case NotFound => false
  }

  /**
   * `validate_git_environment`: the repository check comes first, then the
   * staged-changes check; the message is empty exactly when both pass.
   */
  function ValidateEnvironment(inRepository: bool, quietDiff: Process): (r: (bool, string))
    ensures !inRepository ==> r == (false, NotARepository)
    ensures inRepository && !HasStagedChanges(quietDiff) ==> r == (false, NothingStaged)
    ensures r.0 <==> inRepository && HasStagedChanges(quietDiff)
    ensures r.0 <==> r.1 == ""
  {
    if !inRepository then (false, NotARepository)
    else if !HasStagedChanges(quietDiff) then (false, NothingStaged)
    else (true, "")
  }

  /** The argument vector of a commit: the message travels as one argument, the extra arguments follow. */
  function CommitArgv(message: string, gitArgs: Option<seq<string>>): (r: seq<string>)
    ensures |r| == 4 + |gitArgs.GetOr([])|
    ensures r[..4] == ["git", "commit", "-m", message] && r[4..] == gitArgs.GetOr([])
    ensures gitArgs == None || gitArgs == Some([]) ==> r == ["git", "commit", "-m", message]
  {
    ["git", "commit", "-m", message] + gitArgs.GetOr([])
  }

  /**
   * `GitOperations.commit`: git's own exit code with its output on success,
   * its code with the failure text otherwise, and code 1 when git is missing.
   * The text Python gives a failed process without error output is the
   * parameter `describe` (argument vector and code to text).
   */
  function Commit(message: string, gitArgs: Option<seq<string>>, git: seq<string> -> Process,
                  describe: (seq<string>, int) -> string): (r: (int, string))
    ensures git(CommitArgv(message, gitArgs)).NotFound? ==> r == (1, GitMissing)
    ensures git(CommitArgv(message, gitArgs)).Completed? ==> r.0 == git(CommitArgv(message, gitArgs)).code
    ensures git(CommitArgv(message, gitArgs)).Completed? && r.0 == 0 ==> r.1 == git(CommitArgv(message, gitArgs)).stdout
    ensures git(CommitArgv(message, gitArgs)).Completed? && r.0 != 0 ==> StartsWith(r.1, CommitFailedPrefix)
  {
    var argv := CommitArgv(message, gitArgs);
    match git(argv)
    case NotFound => (1, GitMissing)
    case Completed(code, out, err) =>
      if code == 0 then (0, out)
      else
        var text := CommitFailedPrefix + (if err != "" then err else describe(argv, code));
        assert text[..|CommitFailedPrefix|] == CommitFailedPrefix;
        (code, text)
  }

  /** A failed commit names git's error output when there is any. */
  lemma FailureCarriesStderr(message: string, gitArgs: Option<seq<string>>, git: seq<string> -> Process,
                             describe: (seq<string>, int) -> string)
    requires var p := git(CommitArgv(message, gitArgs)); p.Completed? && p.code != 0 && p.stderr != ""
    ensures Commit(message, gitArgs, git, describe).1 == CommitFailedPrefix + git(CommitArgv(message, gitArgs)).stderr
  {
  }

  /** One line of a listing, stripped, unless blank. */
  function NonBlank(line: string): (r: Option<string>)
    ensures r.None? <==> Trim(line) == ""
    ensures r.Some? ==> r.value == Trim(line) && r.value != "" && Trim(r.value) == r.value
  {
    var t := Trim(line);
    if t != "" then
      TrimIdempotent(line);
      Some(t)
    else None
  }

  /** The stripped non-blank lines of a listing, in order. */
  function NonBlankLines(lines: seq<string>): seq<string> {
    Collect(NonBlank, lines)
  }

  /** A listing yields exactly its non-blank lines, stripped: each name is one, and each is kept. */
  lemma NonBlankLinesExact(lines: seq<string>)
    ensures forall k :: 0 <= k < |NonBlankLines(lines)| ==>
              NonBlankLines(lines)[k] != "" && Trim(NonBlankLines(lines)[k]) == NonBlankLines(lines)[k]
    ensures forall j :: 0 <= j < |lines| && Trim(lines[j]) != "" ==> Trim(lines[j]) in NonBlankLines(lines)
  {
    var r := NonBlankLines(lines);
    var idx := Origins(NonBlank, lines);
    forall k | 0 <= k < |r|
      ensures r[k] != "" && Trim(r[k]) == r[k]
    {
      assert NonBlank(lines[idx[k]]) == Some(r[k]);
    }
    forall j | 0 <= j < |lines| && Trim(lines[j]) != ""
      ensures Trim(lines[j]) in r
    {
      CollectHas(NonBlank, lines, j);
    }
  }

  /**
   * `get_staged_files` from the output of `git diff --cached --name-only`:
   * its stripped non-blank lines, or nothing when the call fails.
   */
  function StagedFileNames(nameOnly: Process): (r: seq<string>)
    ensures !(nameOnly.Completed? && nameOnly.code == 0) ==> r == []
    ensures nameOnly.Completed? && nameOnly.code == 0 ==> r == NonBlankLines(Split(nameOnly.stdout, '\n'))
  {
    match nameOnly
    case Completed(code, out, _) => if code == 0 then NonBlankLines(Split(out, '\n')) else []
    case NotFound => []
  }

  /** Listing clean names one per line and reading the listing back gives the names. */
  lemma CleanListingRoundTrip(names: seq<string>, stderr: string)
    requires names != []
    requires forall k :: 0 <= k < |names| ==> names[k] != "" && Trim(names[k]) == names[k] && '\n' !in names[k]
    ensures StagedFileNames(Completed(0, Join(names, "\n"), stderr)) == names
  {
    SplitJoin(names, '\n');
    assert forall k :: 0 <= k < |names| ==> NonBlank(names[k]) == Some(names[k]);
    CollectIdentity(NonBlank, names);
  }
}
