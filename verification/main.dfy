/**
 * The command-line entry point: the `commit` callback (repository and
 * staged-changes checks, then custom, auto or interactive mode, with the
 * heuristic message generator) and the `config` subcommand. A raised exit
 * becomes the run's exit code; falling off the end of the callback is exit 0.
 */
module Cli {
  import opened Wrappers
  import opened PyStr
  import opened GitOperations
  import opened Interactive
  import opened Commands
  import LlmProvider
  import CommitGenerator
  import Config

  /** `run_git_commit`: git's own exit code, or 1 when git is missing. */
  function RunGitCommit(message: string, gitArgs: seq<string>, git: seq<string> -> Process): (code: int)
    ensures git(["git", "commit", "-m", message] + gitArgs).Completed? ==>
              code == git(["git", "commit", "-m", message] + gitArgs).code
    ensures git(["git", "commit", "-m", message] + gitArgs).NotFound? ==> code == 1
  {
    match git(["git", "commit", "-m", message] + gitArgs)
    case Completed(c, _, _) => c
    case NotFound => 1
  }

  /** A commit run: the argument vector issued and git's code as the exit code. */
  function CommitRun(message: string, gitArgs: seq<string>, s: Session, requested: seq<int>): (r: Run)
    ensures r.commit == Some(["git", "commit", "-m", message] + gitArgs) && r.requested == requested
    ensures r.exit == Exited(RunGitCommit(message, gitArgs, s.git))
  {
    Run(Exited(RunGitCommit(message, gitArgs, s.git)), Some(["git", "commit", "-m", message] + gitArgs), requested)
  }

  /**
   * The entry point's own commit and the command layer's agree: the same
   * exit code as `GitOperations.commit` for every git outcome, and the same
   * run as `_execute_commit`.
   */
  lemma CommitPathsAgree(message: string, gitArgs: seq<string>, s: Session, requested: seq<int>)
    ensures RunGitCommit(message, gitArgs, s.git) == Commit(message, Some(gitArgs), s.git, s.describe).0
    ensures CommitRun(message, gitArgs, s, requested) == ExecuteCommit(message, gitArgs, s, requested)
  {
    assert CommitArgv(message, Some(gitArgs)) == ["git", "commit", "-m", message] + gitArgs;
  }

  /** The three ways the callback can go once the checks pass. */
  datatype Mode = Custom | Auto | Choose

  /**
   * Custom mode when asked for; auto mode when asked for, or when `main` is
   * called with `interactive=False` and the settings say auto-commit; the
   * choice menu otherwise. `interactive` is `None` for "not given".
   */
  function MainMode(interactive: Option<bool>, auto: bool, custom: bool, c: Config.CommiterConfig): (r: Mode)
    ensures r == Custom <==> custom
    ensures r == Auto <==> !custom && (auto || (interactive == Some(false) && c.autoCommit))
    ensures r == Choose <==> !custom && !auto && !(interactive == Some(false) && c.autoCommit)
  {
    if custom then Custom
    else if auto || (interactive == Some(false) && c.autoCommit) then Auto
    else Choose
  }

  /** The custom branch: a blank message or a declined confirmation falls through to exit 0. */
  function MainCustom(gitArgs: seq<string>, s: Session): (r: Run)
    ensures CustomMessage(s.customAnswer).None? || !s.confirm ==> r == Run(Exited(0), None, [])
    ensures CustomMessage(s.customAnswer).Some? && s.confirm ==>
              r == CommitRun(CustomMessage(s.customAnswer).value, gitArgs, s, [])
  {
    match CustomMessage(s.customAnswer)
    case None => Run(Exited(0), None, [])
    case Some(message) => if s.confirm then CommitRun(message, gitArgs, s, []) else Run(Exited(0), None, [])
  }

  /** The auto branch: commits the first heuristic message; with none it would fall through to exit 0. */
  function MainAuto(gitArgs: seq<string>, s: Session): (r: Run)
    ensures var ms := CommitGenerator.GenerateMessages(s.diff, s.status, 1);
            (ms == [] ==> r == Run(Exited(0), None, [1])) &&
            (ms != [] ==> r == CommitRun(ms[0], gitArgs, s, [1]))
  {
    var messages := CommitGenerator.GenerateMessages(s.diff, s.status, 1);
    if messages != [] then CommitRun(messages[0], gitArgs, s, [1]) else Run(Exited(0), None, [1])
  }

  /** The choice branch: no messages is exit 1, a declined confirmation exit 0, otherwise the chosen message is committed. */
  function MainChoose(gitArgs: seq<string>, s: Session, maxChoices: int): (r: Run)
    ensures r.requested == [maxChoices]
    ensures CommitGenerator.GenerateMessages(s.diff, s.status, maxChoices) == [] ==> r == Run(Exited(1), None, [maxChoices])
    ensures r.commit.Some? ==>
              var ms := CommitGenerator.GenerateMessages(s.diff, s.status, maxChoices);
              s.confirm && SelectChoice(|ms|, s.choiceAnswers).Some? &&
              r == CommitRun(ms[SelectChoice(|ms|, s.choiceAnswers).value], gitArgs, s, [maxChoices])
    ensures var ms := CommitGenerator.GenerateMessages(s.diff, s.status, maxChoices);
            ms != [] && SelectChoice(|ms|, s.choiceAnswers).Some? && s.confirm ==>
              r == CommitRun(ms[SelectChoice(|ms|, s.choiceAnswers).value], gitArgs, s, [maxChoices])
    ensures var ms := CommitGenerator.GenerateMessages(s.diff, s.status, maxChoices);
            ms != [] && SelectChoice(|ms|, s.choiceAnswers).Some? && !s.confirm ==> r == Run(Exited(0), None, [maxChoices])
    ensures var ms := CommitGenerator.GenerateMessages(s.diff, s.status, maxChoices);
            ms != [] && SelectChoice(|ms|, s.choiceAnswers).None? ==> r == Run(AwaitingChoice, None, [maxChoices])
  {
    var messages := CommitGenerator.GenerateMessages(s.diff, s.status, maxChoices);
    if messages == [] then Run(Exited(1), None, [maxChoices])
    else
      match SelectChoice(|messages|, s.choiceAnswers)
      case None => Run(AwaitingChoice, None, [maxChoices])
      case Some(i) =>
        if s.confirm then CommitRun(messages[i], gitArgs, s, [maxChoices])
        else Run(Exited(0), None, [maxChoices])
  }

  /**
   * The `commit` callback: outside a repository exit 1, with nothing staged
   * exit 0, then the settings are loaded and the mode decides.
   */
  function MainFlow(interactive: Option<bool>, auto: bool, custom: bool, gitArgs: Option<seq<string>>,
                    s: Session, m: Config.Manager): (r: (Run, Config.Manager))
    ensures !s.inRepository ==> r == (Run(Exited(1), None, []), m)
    ensures s.inRepository && !HasStagedChanges(s.quietDiff) ==> r == (Run(Exited(0), None, []), m)
    ensures s.inRepository && HasStagedChanges(s.quietDiff) ==>
              var (c, m1) := Config.Get(m);
              var args := gitArgs.GetOr([]);
              r.1 == m1 &&
              r.0 == match MainMode(interactive, auto, custom, c)
                     case Custom => MainCustom(args, s)
                     case Auto => MainAuto(args, s)
                     case Choose => MainChoose(args, s, c.maxChoices)
  {
    var args := gitArgs.GetOr([]);
    if !s.inRepository then (Run(Exited(1), None, []), m)
    else if !HasStagedChanges(s.quietDiff) then (Run(Exited(0), None, []), m)
    else
      var (c, m1) := Config.Get(m);
      match MainMode(interactive, auto, custom, c)
      case Custom => (MainCustom(args, s), m1)
      case Auto => (MainAuto(args, s), m1)
      case Choose => (MainChoose(args, s, c.maxChoices), m1)
  }

  /**
   * The auto branch always commits: the generator never returns an empty
   * list for one message, so the fall-through to exit 0 cannot happen.
   */
  lemma AutoAlwaysCommits(gitArgs: seq<string>, s: Session)
    ensures MainAuto(gitArgs, s).commit.Some?
    ensures MainAuto(gitArgs, s).exit == Exited(RunGitCommit(CommitGenerator.GenerateMessages(s.diff, s.status, 1)[0], gitArgs, s.git))
  {
    var ms := CommitGenerator.GenerateMessages(s.diff, s.status, 1);
    assert |ms| == 1;
  }

  /** The entry point and the command layer disagree on a repository with nothing staged: 0 here, 1 there. */
  lemma NothingStagedDisagreement(interactive: bool, custom: bool, gitArgs: Option<seq<string>>, s: Session,
                                  client: LlmProvider.Ollama, m: Config.Manager)
    requires s.inRepository && !HasStagedChanges(s.quietDiff)
    ensures MainFlow(Some(interactive), false, custom, gitArgs, s, m).0.exit == Exited(0)
    ensures Execute(interactive, custom, gitArgs, s, client, m).0.exit == Exited(1)
  {
  }

  /** With a positive count the choice menu always has something to offer. */
  lemma ChoiceMenuNeverEmpty(s: Session, maxChoices: int)
    requires maxChoices >= 1
    ensures CommitGenerator.GenerateMessages(s.diff, s.status, maxChoices) != []
  {
  }

  // ---------------------------------------------------------------- config subcommand

  /**
   * `config_cmd`: show the settings (exit 0); otherwise a missing key or
   * value, an unknown key or an invalid value exits 1 without an update;
   * a valid `auto_commit`, `interactive_mode` or `max_choices` is applied.
   */
  function ConfigCmd(key: Option<string>, value: Option<string>, show: bool, m: Config.Manager): (r: (Exit, Config.Manager))
    ensures show ==> r == (Exited(0), Config.Get(m).1)
    ensures !show && (key.GetOr("") == "" || value.GetOr("") == "") ==> r == (Exited(1), m)
    ensures !show && key.GetOr("") != "" && value.GetOr("") != "" ==>
              (r.0 == Exited(0) <==> MainUpdate(key.value, value.value).Some?)
    ensures !show && key.GetOr("") != "" && value.GetOr("") != "" && MainUpdate(key.value, value.value).None? ==> r == (Exited(1), m)
    ensures !show && key.GetOr("") != "" && value.GetOr("") != "" && MainUpdate(key.value, value.value).Some? ==>
              r.1 == Config.Update(m, MainUpdate(key.value, value.value).value)
  {
    if show then (Exited(0), Config.Get(m).1)
    else if key.GetOr("") == "" || value.GetOr("") == "" then (Exited(1), m)
    else
      match MainUpdate(key.value, value.value)
      case None => (Exited(1), m)
      case Some(u) => (Exited(0), Config.Update(m, u))
  }

  /** The update a `config_cmd` key/value pair stands for: only the three behaviour settings are known. */
  function MainUpdate(key: string, value: string): (r: Option<map<string, Config.Value>>)
    ensures key !in {"auto_commit", "interactive_mode", "max_choices"} ==> r.None?
    ensures r.Some? ==> r.value.Keys == {key} && Config.WellTyped(r.value)
    ensures key in {"auto_commit", "interactive_mode"} ==>
              r == (if ParseBoolWord(value).Some? then Some(map[key := Config.Bool(ParseBoolWord(value).value)]) else None)
    ensures key == "max_choices" ==>
              r == (if ParseCount(value).Some? then Some(map[key := Config.Int(ParseCount(value).value)]) else None)
  {
    if key == "auto_commit" || key == "interactive_mode" then
      match ParseBoolWord(value)
      case Some(b) => Some(map[key := Config.Bool(b)])
      case None => None
    else if key == "max_choices" then
      match ParseCount(value)
      case Some(n) => Some(map[key := Config.Int(n)])
      case None => None
    else None
  }

  /** Turning auto-commit on makes a later call of `main` with `interactive=False` take the auto branch. */
  lemma AutoCommitSettingSwitchesMode(m: Config.Manager, word: string)
    requires Lower(word) in TrueWords
    ensures var m' := ConfigCmd(Some("auto_commit"), Some(word), false, m).1;
            MainMode(Some(false), false, false, Config.Get(m').0) == Auto
  {
    assert |Lower(word)| >= 1;
  }

  /**
   * `--interactive` is a plain flag with no negative form, so the command
   * line gives `interactive` as `None` or `True` only; for those the
   * auto-commit setting never changes the mode.
   */
  lemma CommandLineIgnoresAutoCommit(interactive: Option<bool>, auto: bool, custom: bool,
                                     c: Config.CommiterConfig, d: Config.CommiterConfig)
    requires interactive == None || interactive == Some(true)
    ensures MainMode(interactive, auto, custom, c) == MainMode(interactive, auto, custom, d)
    ensures MainMode(interactive, auto, custom, c) == Auto <==> !custom && auto
  {
  }
}
