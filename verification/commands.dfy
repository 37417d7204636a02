/**
 * The object-style command layer: `CommitCommand` (validation, mode
 * dispatch, the custom, auto and interactive handlers) and `ConfigCommand`
 * (show, or validate one key/value pair and update the settings). Every
 * outside effect is an oracle of the `Session`; a run reports how it ended,
 * the commit it issued and the message counts it asked for.
 */
module Commands {
  import opened Wrappers
  import opened PyStr
  import opened LlmProvider
  import opened GitOperations
  import opened Interactive
  import Config

  /** How a command ends: an exit code, still at the option prompt when the answers ran out, or an exception. */
  datatype Exit = Exited(code: int) | AwaitingChoice | Raised(error: string)

  /** What a run did: how it ended, the argument vector of the commit it issued, and the counts it asked the generator for. */
  datatype Run = Run(exit: Exit, commit: Option<seq<string>>, requested: seq<int>)

  /**
   * The outside world of one run: the repository and staged-changes checks,
   * the staged diff and the porcelain status text of `Porcelain.StatusCall`
   * (each empty when git fails), the language-model backend, the user's
   * answers, and the commit process.
   */
  datatype Session = Session(
    inRepository: bool,
    quietDiff: Process,
    diff: string,
    status: string,
    ask: Request -> Option<string>,
    customAnswer: string,
    choiceAnswers: seq<string>,
    confirm: bool,
    git: seq<string> -> Process,
    describe: (seq<string>, int) -> string)

  // ---------------------------------------------------------------- construction

  /** Python attribute access on the settings record: only its six fields exist. */
  function Attribute(c: Config.CommiterConfig, name: string): (r: Result<Config.Value, string>)
    ensures r.Ok? <==> name in Config.FieldNames
    ensures r.Ok? ==> r.value == Config.Field(c, name)
  {
    if name in Config.FieldNames then Ok(Config.Field(c, name))
    else Err("AttributeError: 'CommiterConfig' object has no attribute '" + name + "'")
  }

  /** The language-model settings the command layer expects. */
  datatype LlmSettings = LlmSettings(provider: string, model: string, baseUrl: string)

  const DefaultLlm := LlmSettings("ollama", DefaultModel, DefaultBaseUrl)

  /** `CommitCommand()` as written: it reads `llm_provider` from the settings record before building the client. */
  function ConstructAsWritten(m: Config.Manager): (r: (Result<Ollama, string>, Config.Manager))
    ensures r.1 == Config.Get(m).1
    ensures r.0 == Err(Attribute(Config.Get(m).0, "llm_provider").error)
  {
    var (c, m1) := Config.Get(m);
    assert "llm_provider" !in Config.FieldNames;
    match Attribute(c, "llm_provider")
    case Err(e) => (Err(e), m1)
    case Ok(_) => assert false; (Err(""), m1)
  }

  /** No settings file, cached or stored, lets the command be built as written. */
  lemma ConstructionAlwaysFails(m: Config.Manager)
    ensures ConstructAsWritten(m).0 == Err("AttributeError: 'CommiterConfig' object has no attribute 'llm_provider'")
  {
    assert "llm_provider" !in Config.FieldNames;
    assert "AttributeError: 'CommiterConfig' object has no attribute '" + "llm_provider" + "'"
        == "AttributeError: 'CommiterConfig' object has no attribute 'llm_provider'";
  }

  /** `CommitCommand()` with the language-model settings it evidently means to read. */
  function Construct(m: Config.Manager, llm: LlmSettings): (r: (Result<Ollama, string>, Config.Manager))
    ensures r.1 == Config.Get(m).1
    ensures r.0 == MakeProvider(llm.provider, llm.model, Some(llm.baseUrl))
  {
    (MakeProvider(llm.provider, llm.model, Some(llm.baseUrl)), Config.Get(m).1)
  }

  /** With the default settings the command is built around the local Ollama client. */
  lemma DefaultSettingsConstruct(m: Config.Manager)
    ensures Construct(m, DefaultLlm).0 == Ok(Ollama("llama3.2", "http://localhost:11434"))
  {
  }

  // ---------------------------------------------------------------- commit command

  /** `_generate_commit_messages`: nothing for an empty diff, otherwise what the client returns. */
  function GenerateFor(s: Session, client: Ollama, maxChoices: int): (r: seq<string>)
    ensures s.diff == "" ==> r == []
    ensures s.diff != "" ==> r == GenerateCommitMessages(client, s.diff, maxChoices, s.ask).messages
    ensures |r| <= Cap(maxChoices)
  {
    if s.diff == "" then [] else GenerateCommitMessages(client, s.diff, maxChoices, s.ask).messages
  }

  /** `_execute_commit`: runs the commit and ends with git's own exit code. */
  function ExecuteCommit(message: string, gitArgs: seq<string>, s: Session, requested: seq<int>): (r: Run)
    ensures r.commit == Some(["git", "commit", "-m", message] + gitArgs) && r.requested == requested
    ensures s.git(["git", "commit", "-m", message] + gitArgs).Completed? ==>
              r.exit == Exited(s.git(["git", "commit", "-m", message] + gitArgs).code)
    ensures s.git(["git", "commit", "-m", message] + gitArgs).NotFound? ==> r.exit == Exited(1)
  {
    var argv := CommitArgv(message, Some(gitArgs));
    Run(Exited(Commit(message, Some(gitArgs), s.git, s.describe).0), Some(argv), requested)
  }

  /** `_handle_custom_commit`: no message or a declined confirmation ends with 0 and no commit. */
  function HandleCustom(gitArgs: seq<string>, s: Session): (r: Run)
    ensures CustomMessage(s.customAnswer).None? || !s.confirm ==> r == Run(Exited(0), None, [])
    ensures CustomMessage(s.customAnswer).Some? && s.confirm ==>
              r == ExecuteCommit(CustomMessage(s.customAnswer).value, gitArgs, s, [])
  {
    match CustomMessage(s.customAnswer)
    case None => Run(Exited(0), None, [])
    case Some(message) =>
      if s.confirm then ExecuteCommit(message, gitArgs, s, []) else Run(Exited(0), None, [])
  }

  /** `_handle_auto_commit`: asks for one message and commits it without confirmation; none ends with 1. */
  function HandleAuto(gitArgs: seq<string>, s: Session, client: Ollama): (r: Run)
    ensures r.requested == [1]
    ensures GenerateFor(s, client, 1) == [] ==> r == Run(Exited(1), None, [1])
    ensures GenerateFor(s, client, 1) != [] ==> r == ExecuteCommit(GenerateFor(s, client, 1)[0], gitArgs, s, [1])
  {
    var messages := GenerateFor(s, client, 1);
    if messages == [] then Run(Exited(1), None, [1])
    else ExecuteCommit(messages[0], gitArgs, s, [1])
  }

  /**
   * `_handle_interactive_commit`: asks for `max_choices` messages, lets the
   * user pick one and commits it only once confirmed.
   */
  function HandleInteractive(gitArgs: seq<string>, s: Session, client: Ollama, maxChoices: int): (r: Run)
    ensures r.requested == [maxChoices]
    ensures GenerateFor(s, client, maxChoices) == [] ==> r == Run(Exited(1), None, [maxChoices])
    ensures r.commit.Some? ==>
              var ms := GenerateFor(s, client, maxChoices);
              s.confirm && SelectChoice(|ms|, s.choiceAnswers).Some? &&
              r == ExecuteCommit(ms[SelectChoice(|ms|, s.choiceAnswers).value], gitArgs, s, [maxChoices])
    ensures var ms := GenerateFor(s, client, maxChoices);
            ms != [] && SelectChoice(|ms|, s.choiceAnswers).Some? && s.confirm ==>
              r == ExecuteCommit(ms[SelectChoice(|ms|, s.choiceAnswers).value], gitArgs, s, [maxChoices])
    ensures var ms := GenerateFor(s, client, maxChoices);
            ms != [] && SelectChoice(|ms|, s.choiceAnswers).Some? && !s.confirm ==> r == Run(Exited(0), None, [maxChoices])
    ensures var ms := GenerateFor(s, client, maxChoices);
            ms != [] && SelectChoice(|ms|, s.choiceAnswers).None? ==> r == Run(AwaitingChoice, None, [maxChoices])
  {
    var messages := GenerateFor(s, client, maxChoices);
    if messages == [] then Run(Exited(1), None, [maxChoices])
    else
      match SelectChoice(|messages|, s.choiceAnswers)
      case None => Run(AwaitingChoice, None, [maxChoices])
      case Some(i) =>
        if s.confirm then ExecuteCommit(messages[i], gitArgs, s, [maxChoices])
        else Run(Exited(0), None, [maxChoices])
  }

  /**
   * `CommitCommand.execute` on a built command: an invalid environment ends
   * with 1 before anything else happens; then `custom` wins over
   * `interactive`, and auto mode is the fallback.
   */
  function Execute(interactive: bool, custom: bool, gitArgs: Option<seq<string>>, s: Session,
                   client: Ollama, m: Config.Manager): (r: (Run, Config.Manager))
    ensures !ValidateEnvironment(s.inRepository, s.quietDiff).0 ==> r == (Run(Exited(1), None, []), m)
    ensures ValidateEnvironment(s.inRepository, s.quietDiff).0 ==> r.1 == Config.Get(m).1
    ensures ValidateEnvironment(s.inRepository, s.quietDiff).0 && custom ==>
              r.0 == HandleCustom(gitArgs.GetOr([]), s)
    ensures ValidateEnvironment(s.inRepository, s.quietDiff).0 && !custom && interactive ==>
              r.0 == HandleInteractive(gitArgs.GetOr([]), s, client, Config.Get(m).0.maxChoices)
    ensures ValidateEnvironment(s.inRepository, s.quietDiff).0 && !custom && !interactive ==>
              r.0 == HandleAuto(gitArgs.GetOr([]), s, client)
  {
    var args := gitArgs.GetOr([]);
    var (valid, _) := ValidateEnvironment(s.inRepository, s.quietDiff);
    if !valid then (Run(Exited(1), None, []), m)
    else
      var (c, m1) := Config.Get(m);
      if custom then (HandleCustom(args, s), m1)
      else if interactive then (HandleInteractive(args, s, client, c.maxChoices), m1)
      else (HandleAuto(args, s, client), m1)
  }

  /**
   * `CommitCommand().execute(...)` with the corrected construction: an
   * unsupported provider raises before anything else; otherwise the command
   * runs on the client built from the settings, after the settings load the
   * construction did.
   */
  function RunCommit(llm: LlmSettings, interactive: bool, custom: bool, gitArgs: Option<seq<string>>,
                     s: Session, m: Config.Manager): (r: (Run, Config.Manager))
    ensures llm.provider != "ollama" ==>
              r == (Run(Raised("Unsupported LLM provider: " + llm.provider), None, []), Config.Get(m).1)
    ensures llm.provider == "ollama" ==>
              r == Execute(interactive, custom, gitArgs, s, Ollama(llm.model, llm.baseUrl), Config.Get(m).1)
  {
    var (built, m1) := Construct(m, llm);
    match built
    case Err(e) => (Run(Raised(e), None, []), m1)
    case Ok(client) => Execute(interactive, custom, gitArgs, s, client, m1)
  }

  /** The commit layer ends with 1 when nothing is staged, and asks for nothing. */
  lemma NothingStagedExitsOne(interactive: bool, custom: bool, gitArgs: Option<seq<string>>, s: Session,
                              client: Ollama, m: Config.Manager)
    requires s.inRepository && !HasStagedChanges(s.quietDiff)
    ensures Execute(interactive, custom, gitArgs, s, client, m).0 == Run(Exited(1), None, [])
  {
  }

  /** Auto mode commits the first message whatever the user would answer to a confirmation. */
  lemma AutoIgnoresConfirmation(gitArgs: Option<seq<string>>, s: Session, client: Ollama, m: Config.Manager)
    requires ValidateEnvironment(s.inRepository, s.quietDiff).0 && GenerateFor(s, client, 1) != []
    ensures var r := Execute(false, false, gitArgs, s, client, m).0;
            r.commit == Some(["git", "commit", "-m", GenerateFor(s, client, 1)[0]] + gitArgs.GetOr([])) &&
            r == Execute(false, false, gitArgs, s.(confirm := !s.confirm), client, m).0
  {
    var s' := s.(confirm := !s.confirm);
    assert GenerateFor(s', client, 1) == GenerateFor(s, client, 1);
  }

  // ---------------------------------------------------------------- config command

  const TrueWords: seq<string> := ["true", "1", "yes", "on"]
  const FalseWords: seq<string> := ["false", "0", "no", "off"]
  const Providers: seq<string> := ["ollama", "openai", "anthropic"]

  /** A yes/no setting as typed: one of the eight words, in any letter case. */
  function ParseBoolWord(value: string): (r: Option<bool>)
    ensures r == Some(true) <==> Lower(value) in TrueWords
    ensures r == Some(false) <==> Lower(value) in FalseWords
    ensures r.None? <==> Lower(value) !in TrueWords && Lower(value) !in FalseWords
  {
    if Lower(value) in TrueWords then Some(true)
    else if Lower(value) in FalseWords then Some(false)
    else None
  }

  /** A count setting as typed: an integer of at least 1. */
  function ParseCount(value: string): (r: Option<int>)
    ensures r.Some? <==> PyInt(value).Some? && PyInt(value).value >= 1
    ensures r.Some? ==> r == PyInt(value)
  {
    match PyInt(value)
    case Some(n) => if n >= 1 then Some(n) else None
    case None => None
  }

  /**
   * `ConfigCommand._parse_config_update`: the single update a key/value pair
   * stands for, or `None` when the key is unknown or the value invalid.
   */
  function ParseConfigUpdate(key: string, value: string): (r: Option<map<string, Config.Value>>)
    ensures key !in {"interactive_mode", "max_choices", "llm_provider", "llm_model", "llm_base_url"} ==> r.None?
    ensures r.Some? ==> r.value.Keys == {key} && Config.WellTyped(r.value)
    ensures key == "interactive_mode" ==>
              r == (if ParseBoolWord(value).Some? then Some(map[key := Config.Bool(ParseBoolWord(value).value)]) else None)
    ensures key == "max_choices" ==>
              r == (if ParseCount(value).Some? then Some(map[key := Config.Int(ParseCount(value).value)]) else None)
    ensures key == "llm_provider" ==>
              r == (if Lower(value) in Providers then Some(map[key := Config.Str(Lower(value))]) else None)
    ensures key == "llm_model" || key == "llm_base_url" ==> r == Some(map[key := Config.Str(value)])
  {
    if key == "interactive_mode" then
      match ParseBoolWord(value)
      case Some(b) => Some(map[key := Config.Bool(b)])
      case None => None
    else if key == "max_choices" then
      match ParseCount(value)
      case Some(n) => Some(map[key := Config.Int(n)])
      case None => None
    else if key == "llm_provider" then
      if Lower(value) in Providers then Some(map[key := Config.Str(Lower(value))]) else None
    else if key == "llm_model" || key == "llm_base_url" then Some(map[key := Config.Str(value)])
    else None
  }

  /** Any count written out in decimal is accepted exactly when it is at least 1, and stored as that number. */
  lemma CountRoundTrip(n: int)
    ensures ParseConfigUpdate("max_choices", IntToString(n)) ==
              if n >= 1 then Some(map["max_choices" := Config.Int(n)]) else None
  {
    IntRoundTrip(n);
  }

  /** `_show_config` as written: after loading, it reads `llm_provider`, which the record lacks. */
  function ShowConfigAsWritten(m: Config.Manager): (r: (Exit, Config.Manager))
    ensures r.1 == Config.Get(m).1
    ensures r.0.Raised?
  {
    var (c, m1) := Config.Get(m);
    assert "llm_provider" !in Config.FieldNames;
    match Attribute(c, "llm_provider")
    case Err(e) => (Raised(e), m1)
    case Ok(_) => assert false; (Raised(""), m1)
  }

  /** `_show_config` reading only what the record holds: it loads the settings and ends normally. */
  function ShowConfig(m: Config.Manager): (r: (Exit, Config.Manager))
    ensures r == (Exited(0), Config.Get(m).1)
    ensures r.1.cache == Some(Config.Get(m).0)
  {
    (Exited(0), Config.Get(m).1)
  }

  /**
   * `ConfigCommand.execute`: show the settings; otherwise a missing key or
   * value, an unknown key or an invalid value ends with 1 and changes
   * nothing, and a valid pair is applied and ends with 0.
   */
  function ConfigExecute(key: Option<string>, value: Option<string>, show: bool, m: Config.Manager): (r: (Exit, Config.Manager))
    ensures show ==> r == ShowConfig(m)
    ensures !show && (key.GetOr("") == "" || value.GetOr("") == "") ==> r == (Exited(1), m)
    ensures !show && key.GetOr("") != "" && value.GetOr("") != "" && ParseConfigUpdate(key.value, value.value).None? ==>
              r == (Exited(1), m)
    ensures !show && key.GetOr("") != "" && value.GetOr("") != "" && ParseConfigUpdate(key.value, value.value).Some? ==>
              r == (Exited(0), Config.Update(m, ParseConfigUpdate(key.value, value.value).value))
  {
    if show then ShowConfig(m)
    else if key.GetOr("") == "" || value.GetOr("") == "" then (Exited(1), m)
    else
      match ParseConfigUpdate(key.value, value.value)
      case None => (Exited(1), m)
      case Some(u) => (Exited(0), Config.Update(m, u))
  }

  /** Setting a language-model key reports success but leaves the record as it was: the record has no such field. */
  lemma LlmKeysIgnored(key: string, value: string, m: Config.Manager)
    requires key in {"llm_model", "llm_base_url"} && value != ""
    ensures ConfigExecute(Some(key), Some(value), false, m).0 == Exited(0)
    ensures ConfigExecute(Some(key), Some(value), false, m).1.cache == Some(Config.Get(m).0)
  {
    var u := map[key := Config.Str(value)];
    Config.FieldsDetermine(Config.Overlay(Config.Get(m).0, u), Config.Get(m).0);
  }
}
