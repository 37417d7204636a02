# commiter, modelled in Dafny

`commiter` is a command-line front end to `git commit`. It reads the staged
changes, offers commit messages and commits the one the user picks, types or
accepts automatically. The messages come either from a local language model
behind the Ollama HTTP API or from a built-in heuristic that looks at file
extensions. A small JSON settings file holds the behaviour settings, and a
`config` subcommand edits it. The program has two command layers:
- the `typer` callback in `main.py`, which uses the heuristic generator;
- the object-style `CommitCommand`/`ConfigCommand` in `commands.py`, which
  uses the language model.

The model is a set of pure functions over immutable data. Every outside
effect is a parameter:
- the outcome of each `git` process;
- the language-model backend (a request to an optional reply);
- the text the user types at each prompt;
- the answer to the confirmation;
- how the editor run ends, and the file it leaves behind.

Every command flow returns how the run ended (an exit code, or still at the
option prompt), the `git commit` argument vector it issued, if any, and the
message counts it asked the generator for. The settings file is an abstract
store: missing, not JSON, JSON that is no object, or an object of JSON values.

Modules, one per source file plus shared helpers:
- `Wrappers` holds `Option` and `Result`.
- `PyStr` holds the Python `str` operations the program uses: `strip` with and without a character set, `split`, `join`, `startswith`/`endswith`, `int()`/`str()` on decimal integers, ASCII `lower`, slices. It also holds `Collect`, the filter-map of a list comprehension, with its order and completeness lemmas.
- `Porcelain` reads `git status --porcelain` lines. Both the status display and the heuristic generator read them the same way.
- `LlmProvider` covers `llm_provider.py`: the prompt, the reply parser, generation and the provider check.
- `CommitGenerator` covers `commit_generator.py`: the status call, the heuristic messages and the editor-comment filter.
- `Interactive` covers `interactive.py`: option selection, the custom message and the staged-status display.
- `GitOperations` covers `git_operations.py`: validation, the commit call and the staged-file listing.
- `Config` covers `config.py`: the settings record, `to_dict`/`from_dict`, and the cached manager.
- `Commands` covers `commands.py`: `CommitCommand` and `ConfigCommand`.
- `Cli` covers `main.py`: the `commit` callback and the `config` subcommand.

Some consequences of the reply parser's code, which the model follows:
- The reply parser drops lines that start with `1.` through `5.` whole.
- The character strip `strip('"\'`-*•')` removes no blanks, so a `- fix bug` line yields ` fix bug` with its leading space (`LlmProvider.DashBulletKeepsBlank`).
- On the reply `1. Add retry logic`, a fence, `- fix bug`, `**Update docs**`, `ok`, the parser gives `[" fix bug", "Update docs"]`: see `LlmProvider.ListMarkerDropsLine`, `LlmProvider.DashBulletKeepsBlank` and `LlmProvider.BoldLineKeepsText`.
- `--interactive` (main.py:62-65) is a plain flag with no `--no-interactive` form, so the command line never passes `interactive=False` and the `auto_commit` setting never takes effect there (`Cli.CommandLineIgnoresAutoCommit`).
- Because the count check follows the append, a `max_choices` of 0 or less still lets one message through (`LlmProvider.NonPositiveCapKeepsFirst`).

## Model

| member | source | states |
|---|---|---|
| `LlmProvider.MakeProvider` | commiter/llm_provider.py:154-164 | only the `ollama` provider is accepted, with the given model and the base URL or its default; any other name is an error naming it |
| `LlmProvider.PromptEmbedsDiff` | commiter/llm_provider.py:76-99 | the prompt is the empty-diff prompt with the diff inserted at one slot, as is up to 2000 characters, else its first 2000 characters plus `\n... (truncated)` |
| `LlmProvider.PromptSizeBounded` | commiter/llm_provider.py:79-80 | however long the diff, the prompt is at most 2016 characters longer than the empty-diff prompt |
| `LlmProvider.PromptIgnoresDiffTail` | commiter/llm_provider.py:79-80 | two long diffs that agree on their first 2000 characters give the same prompt |
| `LlmProvider.StripNumbering` | commiter/llm_provider.py:116-118 | a digit-led line containing `.` or `)` keeps the stripped text after its first `.`, or after its first `)` when there is no `.`; any other line is unchanged; the result is a substring of the line |
| `LlmProvider.Cleanup` | commiter/llm_provider.py:120-131 | the whole clean-up equals the character strip alone: the bold, inline-code and bullet steps change nothing |
| `LlmProvider.CleanupInert` | commiter/llm_provider.py:123-131 | a line without a leading or trailing quote, backtick, dash, star or bullet passes the bold, inline-code and bullet steps unchanged |
| `LlmProvider.LineCandidate` | commiter/llm_provider.py:107-134 | a blank line, a line starting with a meta phrase or `1.`..`5.`, or one starting or ending with a code fence, contributes nothing; a candidate is longer than 5 characters, has no decoration at either end and is a substring of its line |
| `LlmProvider.NumberingRule` | commiter/llm_provider.py:108-133 | a line that is not skipped contributes its numbering-stripped, decoration-stripped text when that is longer than 5 characters |
| `LlmProvider.DashBulletKeepsBlank` | commiter/llm_provider.py:121-131 | a `- ` bullet line comes out with the blank after the dash still in front |
| `LlmProvider.ListMarkerDropsLine` | commiter/llm_provider.py:108-111 | a line opening with `1.` to `5.` contributes nothing, however it goes on |
| `LlmProvider.BoldLineKeepsText` | commiter/llm_provider.py:121-124 | a line wrapped in `**` around a text longer than 5 characters, with no strip character at either end of that text, contributes that text, the stars removed by the character strip |
| `LlmProvider.PlainLine` | commiter/llm_provider.py:107-133 | a stripped line with no meta phrase, fence or leading digit contributes its character-stripped text when longer than 5 characters |
| `LlmProvider.ParseLoop` | commiter/llm_provider.py:103-138 | the loop with early exit returns the first `Cap(max_choices)` candidates of all lines |
| `LlmProvider.ParseCommitMessages` | commiter/llm_provider.py:101-138 | the result is the first `max_choices` candidates in line order (at least one may pass when `max_choices` is below 1); each is longer than 5 characters, free of newlines and undecorated at both ends |
| `LlmProvider.CandidatesFromLines` | commiter/llm_provider.py:106-134 | every candidate of newline-free lines is longer than 5 characters, newline-free and undecorated |
| `LlmProvider.MessagesFollowReplyLines` | commiter/llm_provider.py:106-136 | each message is the candidate of a distinct reply line, and the lines occur in increasing order |
| `LlmProvider.ShortReplyKeepsAll` | commiter/llm_provider.py:133-138 | a reply with fewer candidates than the cap yields all of them |
| `LlmProvider.NonPositiveCapKeepsFirst` | commiter/llm_provider.py:133-136 | with `max_choices` of 0 or less, a reply with candidates yields exactly its first one |
| `LlmProvider.GenerateCommitMessages` | commiter/llm_provider.py:60-74 | a whitespace-only diff sends no request and yields nothing; otherwise the request goes to `<base>/api/generate` with the model and the prompt; a failed or blank reply yields nothing, any other reply is parsed after stripping |
| `Porcelain.EntriesOf` | commiter/commit_generator.py:57-60 | entry a is the entry of a line starting with A, M, D or R, namely of line `Origins[a]`, and those line numbers strictly increase, so the entries keep line order |
| `Porcelain.EntriesComplete` | commiter/commit_generator.py:57-60 | every line starting with A, M, D or R is one of the origins and yields its entry |
| `CommitGenerator.StagedFiles` | commiter/commit_generator.py:56-60 | one file name per staged entry, name k being the path of entry k |
| `CommitGenerator.StagedFilesInOrder` | commiter/commit_generator.py:56-60 | name a is `line[3:].strip()` of an accepted line of the stripped status, and the accepted lines are taken in strictly increasing line order |
| `CommitGenerator.Matching` | commiter/commit_generator.py:66-70 | a bucket holds exactly the files with one of its suffixes, all of them when all match, none when none match |
| `CommitGenerator.MatchingInOrder` | commiter/commit_generator.py:66-70 | entry a of a bucket is the staged file at position `Origins[a]`, which has one of the suffixes, and those positions strictly increase, so staged order and repeats are kept |
| `CommitGenerator.MatchingComplete` | commiter/commit_generator.py:66-70 | every staged file with one of the suffixes is kept from its own position |
| `CommitGenerator.BucketNonEmpty` | commiter/commit_generator.py:66-70 | a bucket is non-empty exactly when some staged file has one of its suffixes |
| `CommitGenerator.BucketMessage` | commiter/commit_generator.py:73-83 | an empty bucket gives no message, one file gives `Update <file>`, more give `Update <n> <kind>` |
| `CommitGenerator.FlagMessage` | commiter/commit_generator.py:85-89 | the fixed message appears exactly when the bucket is not empty |
| `CommitGenerator.Summaries` | commiter/commit_generator.py:62-95 | no staged file gives no summary; otherwise one to five messages ending with the generic one |
| `CommitGenerator.SummariesByKind` | commiter/commit_generator.py:62-95 | with files staged, each non-empty bucket contributes its message, in the order Python, JavaScript/TypeScript, configuration, documentation; empty buckets contribute nothing; the generic message is last; the length is one more than the number of non-empty buckets |
| `CommitGenerator.Fillers` | commiter/commit_generator.py:97-99 | the fillers for positions `from` up to `to` are `to - from` messages, entry k being `Commit staged changes (from+k+1)` |
| `CommitGenerator.Pad` | commiter/commit_generator.py:97-99 | the list grows to `count` entries and is never shortened; its prefix is kept, and entry k of the filler is `Commit staged changes (k+1)` |
| `CommitGenerator.Finish` | commiter/commit_generator.py:97-101 | after padding and `[:count]`, a non-negative count gives exactly `count` entries, a negative one drops that many from the end; summaries come first, then the fillers |
| `CommitGenerator.GenerateMessages` | commiter/commit_generator.py:43-101 | with neither diff nor status, the single `No staged changes found` whatever the count; otherwise exactly `count` messages for `count >= 0`, summaries first, fillers after |
| `CommitGenerator.DiffOnlyGatesGeneration` | commiter/commit_generator.py:50-54 | the diff matters only through being empty |
| `CommitGenerator.NoFilesMeansFiller` | commiter/commit_generator.py:63-99 | a diff with no accepted status line gives only filler messages |
| `CommitGenerator.StatusText` | commiter/commit_generator.py:28-40 | a failed status call gives the empty text, a successful one its output; missing git is not caught and raises `FileNotFoundError` |
| `CommitGenerator.EmptyStatusNoFiles` | commiter/commit_generator.py:56-60 | the empty status text names no staged file |
| `CommitGenerator.CachedStatusOnlyFillers` | commiter/commit_generator.py:28-40 | when git rejects the status call with `--cached`, the status text is empty and a non-empty diff gets only filler messages |
| `CommitGenerator.StatusCallSeesStagedFiles` | commiter/commit_generator.py:28-99 | the status call without `--cached`, succeeding with some staged file, gives its output, and the messages open with the file summaries |
| `CommitGenerator.SinglePythonFile` | commiter/commit_generator.py:73-93 | a lone Python file gives `Update <file>` and then `Modify <file>` |
| `CommitGenerator.KeepLine` | commiter/commit_generator.py:134-137 | a line is dropped exactly when stripped it is blank or starts with `#`; a kept line is the stripped line |
| `CommitGenerator.KeptLinesClean` | commiter/commit_generator.py:132-137 | every kept line is non-blank, uncommented and stripped, and newline-free when the file lines are |
| `CommitGenerator.KeptLinesComplete` | commiter/commit_generator.py:132-137 | every non-blank, uncommented file line reaches the message, stripped |
| `CommitGenerator.EditorMessage` | commiter/commit_generator.py:124-143 | an editor that exits with an error status gives no message; a missing editor program raises `FileNotFoundError`, and only then does the reader fail; after a clean edit, no message exactly when no line is kept, and else a message whose lines are exactly the kept lines |
| `CommitGenerator.EditorMessageLines` | commiter/commit_generator.py:132-139 | a clean edit that keeps some line gives a message, and every line of it is stripped, non-blank and not a comment |
| `Interactive.Accepts` | commiter/interactive.py:38-49 | an answer, with the empty answer standing for `1`, is accepted exactly when it reads as an integer from 1 to n, and selects that number less one |
| `Interactive.SelectChoice` | commiter/interactive.py:36-49 | the selection is the first accepted answer, every earlier answer having been rejected; it is below n; there is none exactly when every answer is rejected |
| `Interactive.TypedNumberSelects` | commiter/interactive.py:43-45 | typing the decimal form of k, for 1 <= k <= n, selects index k-1 |
| `Interactive.DefaultSelectsFirst` | commiter/interactive.py:38-45 | accepting the default selects index 0 |
| `Interactive.RejectedAnswerSkipped` | commiter/interactive.py:43-49 | a non-numeric or out-of-range answer is passed over and the choice comes from the later answers |
| `Interactive.CustomMessage` | commiter/interactive.py:107-116 | an all-whitespace answer gives no message; otherwise the stripped answer, non-empty and without blanks at either end |
| `Interactive.SymbolsDistinct` | commiter/interactive.py:82-87 | different kinds of change show different signs |
| `Interactive.StatusRows` | commiter/interactive.py:64-91 | no staged line shows the `No staged changes found` notice alone; otherwise the `Staged changes:` header, then one row per staged line, with its sign and file name |
| `Interactive.ShowStagedFiles` | commiter/interactive.py:55-96 | missing git shows `Git not found`, a failed status call `Error getting git status`, and a successful one the status rows; more than one line appears exactly when the call succeeded with some staged line |
| `Interactive.CachedStatusShowsError` | commiter/interactive.py:57-62 | when git rejects the status call with `--cached`, the display shows only `Error getting git status` |
| `Interactive.StatusCallShowsRows` | commiter/interactive.py:57-91 | the status call without `--cached`, succeeding with some staged line, shows the header and one row per staged line |
| `Interactive.Rows` | commiter/interactive.py:74-89 | one row per entry, in order, sign then file name |
| `GitOperations.HasStagedChanges` | commiter/git_operations.py:27-36 | staged changes exist exactly when the quiet diff ran and ended non-zero |
| `GitOperations.ValidateEnvironment` | commiter/git_operations.py:103-115 | outside a repository the repository message wins; then the staged-changes message; the result is valid exactly when both checks pass, and exactly then the message is empty |
| `GitOperations.CommitArgv` | commiter/git_operations.py:87-90 | the argument vector is `git commit -m <message>` followed by the extra arguments; with none, or an empty list, it is those four words alone |
| `GitOperations.Commit` | commiter/git_operations.py:81-100 | missing git gives code 1 and its message; otherwise git's own code, its output on success and a `Git commit failed: ` text on failure |
| `GitOperations.FailureCarriesStderr` | commiter/git_operations.py:95-97 | a failure with error output reports that output after the prefix |
| `GitOperations.NonBlank` | commiter/git_operations.py:62 | a listing line is dropped exactly when blank, and kept stripped otherwise |
| `GitOperations.NonBlankLinesExact` | commiter/git_operations.py:62 | every listed name is non-blank and stripped, and every non-blank line is listed |
| `GitOperations.StagedFileNames` | commiter/git_operations.py:53-64 | a failed listing gives no files; otherwise the stripped non-blank lines of its output |
| `GitOperations.CleanListingRoundTrip` | commiter/git_operations.py:53-64 | listing clean names one per line and reading the listing back gives the names |
| `Config.FieldsDetermine` | commiter/config.py:10-24 | two records with equal fields are equal |
| `Config.Overlay` | commiter/config.py:85-87 | every field named in the update takes the given value, and every other field keeps its value |
| `Config.FromDict` | commiter/config.py:30-33 | a dictionary reads as a record exactly when its keys are fields and its values fit them; the record holds the given values over the defaults |
| `Config.ToDict` | commiter/config.py:26-33 | the dictionary has one entry per field, and reading it back gives the record |
| `Config.EmptyObjectIsDefaults` | commiter/config.py:15-33 | an empty object reads as the defaults |
| `Config.Read` | commiter/config.py:55-60 | a file reads as a record exactly when it is a JSON object that `from_dict` accepts |
| `Config.Save` | commiter/config.py:70-78 | without a cached record nothing is written; otherwise the file afterwards reads as the cached record |
| `Config.Load` | commiter/config.py:48-68 | a cached record is returned without touching the file; else the file's record; else the defaults, written to the file; the result is cached and on a first load the file afterwards holds it |
| `Config.Get` | commiter/config.py:91-95 | returns the cached record if there is one, else loads |
| `Config.Update` | commiter/config.py:80-89 | the cached record becomes the loaded record with the update applied, and the file afterwards holds exactly that record |
| `Config.LoadCached` | commiter/config.py:50-51 | loading twice rereads nothing and returns the same record |
| `Config.UpdateTouchesOnlyNamedFields` | commiter/config.py:85-87 | an update sets the named fields and leaves every other field unchanged |
| `Config.UnknownKeysIgnored` | commiter/config.py:85-87 | dropping the keys that are not fields changes nothing about an update |
| `Config.UpdateSurvivesReload` | commiter/config.py:77-89 | a fresh manager over the file an update wrote loads the updated record |
| `Config.UnknownKeyResetsFile` | commiter/config.py:55-63 | a file with a key the record lacks loads as the defaults and is overwritten with them |
| `Config.MissingFileGetsDefaults` | commiter/config.py:64-66 | a missing file loads as the defaults and is created holding them |
| `Commands.Attribute` | commiter/commands.py:27-31 | attribute access on the record succeeds exactly for its six fields and gives the field's value |
| `Commands.ConstructAsWritten` | commiter/commands.py:24-31 | building the command loads the settings and then fails with the attribute error for `llm_provider` |
| `Commands.ConstructionAlwaysFails` | commiter/commands.py:26-31 | whatever the settings, construction fails with `'CommiterConfig' object has no attribute 'llm_provider'` |
| `Commands.Construct` | commiter/commands.py:24-31 | with language-model settings supplied, the command loads the settings and builds the client the provider check allows |
| `Commands.DefaultSettingsConstruct` | commiter/commands.py:27-31 | the default language-model settings build the local Ollama client for `llama3.2` |
| `Commands.GenerateFor` | commiter/commands.py:121-140 | an empty diff gives no message; otherwise what the client returns, never more than the cap |
| `Commands.ExecuteCommit` | commiter/commands.py:142-153 | the commit vector is issued and the run ends with git's own code, or 1 when git is missing |
| `Commands.HandleCustom` | commiter/commands.py:63-74 | a blank message or a declined confirmation ends with 0 and no commit; otherwise the message is committed |
| `Commands.HandleAuto` | commiter/commands.py:76-97 | exactly one message is asked for; none ends with 1; otherwise the first is committed with no confirmation |
| `Commands.HandleInteractive` | commiter/commands.py:99-119 | `max_choices` messages are asked for; none ends with 1; a selected message is committed exactly when confirmed, and declining ends with 0; with no accepted answer the run stays at the option prompt; any commit is of the selected message |
| `Commands.Execute` | commiter/commands.py:33-61 | an invalid environment ends with 1 before any generation or commit; otherwise the settings are reloaded, custom wins over interactive, and auto is the fallback |
| `Commands.RunCommit` | commiter/commands.py:24-61 | with the corrected construction, an unsupported provider raises before anything runs; otherwise the command runs on the client built from the settings |
| `Commands.NothingStagedExitsOne` | commiter/commands.py:46-49 | with nothing staged the command layer ends with 1 and asks for nothing |
| `Commands.AutoIgnoresConfirmation` | commiter/commands.py:81-97 | auto mode commits the first message whatever the confirmation answer would be |
| `Commands.ParseBoolWord` | commiter/commands.py:198-208 | `true/1/yes/on` give true and `false/0/no/off` false in any letter case; anything else is rejected |
| `Commands.ParseCount` | commiter/commands.py:210-221 | a count is accepted exactly when it reads as an integer of at least 1 |
| `Commands.ParseConfigUpdate` | commiter/commands.py:194-246 | an unknown key is rejected; a valid pair gives a single well-typed entry; `llm_provider` must be one of three names and is stored lowercased; model and base URL are taken as given |
| `Commands.CountRoundTrip` | commiter/commands.py:210-221 | the decimal form of n is accepted as `max_choices` exactly when n >= 1, and stored as n |
| `Commands.ShowConfigAsWritten` | commiter/commands.py:184-192 | showing the settings loads them and then raises |
| `Commands.ShowConfig` | commiter/commands.py:184-189 | the corrected display loads the settings and ends with 0 |
| `Commands.ConfigExecute` | commiter/commands.py:159-182 | showing is the corrected display; a missing key or value, an unknown key or an invalid value ends with 1 and changes nothing; a valid pair is applied and ends with 0 |
| `Commands.LlmKeysIgnored` | commiter/commands.py:233-237 | setting `llm_model` or `llm_base_url` reports success but leaves the record as loaded |
| `Cli.RunGitCommit` | commiter/main.py:22-34 | the commit vector is run and the result is git's code, or 1 when git is missing |
| `Cli.CommitRun` | commiter/main.py:114-118 | a committing branch issues the vector and exits with `run_git_commit`'s code |
| `Cli.CommitPathsAgree` | commiter/main.py:22-34 | `run_git_commit` gives the same exit code as `GitOperations.commit` for every git outcome, and a committing branch of the entry point ends exactly as the command layer's `_execute_commit` |
| `Cli.MainMode` | commiter/main.py:106-131 | custom mode exactly when asked for; auto mode exactly when asked for, or when `main` is called with `interactive=False` and auto-commit is set; the choice menu otherwise |
| `Cli.MainCustom` | commiter/main.py:107-118 | a blank message or a declined confirmation exits 0 with no commit; otherwise the message is committed |
| `Cli.MainAuto` | commiter/main.py:120-129 | one message is asked for and the first is committed |
| `Cli.MainChoose` | commiter/main.py:131-154 | `max_choices` messages are asked for; none exits 1; a selected message is committed exactly when confirmed, and declining exits 0; with no accepted answer the run stays at the option prompt; any commit is of the selected message |
| `Cli.MainFlow` | commiter/main.py:62-154 | outside a repository exit 1, with nothing staged exit 0, both without loading the settings; otherwise the settings are loaded and the mode decides |
| `Cli.AutoAlwaysCommits` | commiter/main.py:120-129 | the auto branch always commits, because the generator never returns an empty list for one message |
| `Cli.NothingStagedDisagreement` | commiter/main.py:98-101 | with nothing staged the entry point exits 0 while the command layer ends with 1 |
| `Cli.ChoiceMenuNeverEmpty` | commiter/main.py:136-140 | with a positive count the generator always offers something, so the exit-1 branch is unreachable |
| `Cli.ConfigCmd` | commiter/main.py:180-237 | show exits 0; a missing key or value, an unknown key or an invalid value exits 1 with no update; a valid pair is applied |
| `Cli.MainUpdate` | commiter/main.py:196-233 | only `auto_commit`, `interactive_mode` and `max_choices` are known keys; the booleans take the eight words, the count an integer of at least 1 |
| `Cli.AutoCommitSettingSwitchesMode` | commiter/main.py:199-207 | after `config auto_commit <true word>`, a later call of `main` with `interactive=False` takes the auto branch |
| `Cli.CommandLineIgnoresAutoCommit` | commiter/main.py:62-65 | `--interactive` has no negative form, so from the command line `interactive` is `None` or `True`; for those the settings never change the mode, and the auto branch runs exactly when `--auto` is given without `--custom` |

## Left out

- Process execution (`subprocess.run` of git, curl and the editor), JSON encoding and decoding, temporary files, `mkdir` and the home directory: their results are parameters of the model.
- Console, panel, table and spinner output, and the status colours: they change nothing the program computes. `Interactive.StatusColor` records the colour map without a contract.
- `test_connection`, `get_available_models`, `LLMProvider.generate_commit_messages` delegation, and the float sampling parameters of the request: network queries and payload tuning that the model does not observe.
- `cli.py`, the `typer` wiring and `display_help`: plumbing without logic.
- `GitOperations.get_git_status`, `get_diff_content` and the module-level `get_git_diff`: thin process calls whose text output is a parameter (empty on failure, as the source makes it).
- The command flows take the status text as a parameter of the run, standing for the output of the corrected call `git status --porcelain` (see Findings); `CommitGenerator.StatusText` and `Interactive.ShowStagedFiles` model the calls themselves but are not composed into the flows, because the status display changes nothing the flows compute.
- `Interactive.ShowStagedFiles`: the console markup, the colours and the blank line printed before the header and the notice are not modelled.
- `main.py`'s own `check_git_repo` and `check_staged_changes`: they repeat `GitOperations.check_git_repo` and `check_staged_changes`, so the model uses `HasStagedChanges` and a repository flag for both.
- `Commands.GenerateFor`: the catch-all `except Exception` cannot fire in the model, because no modelled step raises.
- `Commands.Execute`: modelled on a command object that could be built, that is, with a client passed in; as written, construction always fails (see Findings).
- `Config.FromDict`: a JSON value of the wrong type for its field (say a string for `max_choices`) is read as a corrupt file, whereas `cls(**data)` would keep it. The record is typed, so it cannot hold such a value.
- `Config.Update`: requires the values to fit their fields; every caller passes a bool or an int for the three behaviour settings. `hasattr` is modelled as "is one of the six fields", because no caller passes a method or dunder name.
- `Interactive.SelectChoice`: the prompt asks again forever; the model gives it a finite list of answers, and running out of them ends the run as `AwaitingChoice`.
- `LlmProvider.StripNumbering`: the leading-digit test is ASCII `0`-`9`. Python's `str.isdigit` also accepts other Unicode digits, such as the superscript `²` or the Arabic-Indic `٣`. On such a line the source strips the numbering and the model leaves the line unchanged.
- `Commands.ConfigExecute`: the show path uses the corrected display `Commands.ShowConfig`, which ends with 0. As written, `_show_config` raises at commands.py:190, which `Commands.ShowConfigAsWritten` models (see Findings).
- `CommitGenerator.EditorMessage`: which editor runs (`git var GIT_EDITOR`, else `nano`) and the temporary file's creation and removal are not modelled, only how the editor run ends and the text it leaves. A failure to read the file back is not modelled either.
- `PyStr.PyInt`: `int()` is modelled as optional blanks, an optional sign and ASCII digits. Underscore separators and non-ASCII digits are not accepted.
- `PyStr.Lower`: ASCII lowering only, which is exact for membership in the fixed ASCII word lists it is used for.
- Universal-newline translation when the edited file is read: the file text is given with `\n` line ends.
- The Rich confirmation prompt is a boolean answer; the option prompt substitutes its default `1` for an empty answer, and the custom prompt its default `""`.

## Findings

| source | as written | input that shows it | evidently intended | confidence | as-written member | corrected member |
|---|---|---|---|---|---|---|
| commiter/commands.py:26-31 | `CommitCommand.__init__` reads `llm_provider`, `llm_model` and `llm_base_url` from the settings record, which has none of these fields | any settings file, or none: `CommitCommand()` raises `AttributeError: 'CommiterConfig' object has no attribute 'llm_provider'` | the language-model settings come from a record that holds them, defaulting to the local Ollama model, so the command can be built | not executed | `Commands.ConstructionAlwaysFails` | `Commands.DefaultSettingsConstruct` |
| commiter/commands.py:184-192 | `ConfigCommand._show_config` prints `config.llm_provider` after loading the settings | `ConfigCommand().execute(show=True)` with any settings raises at line 190 instead of returning 0 | show only what the record holds and return 0 | not executed | `Commands.ShowConfigAsWritten` | `Commands.ShowConfig` |
| commiter/commit_generator.py:29-40 | `get_git_status` runs `git status --porcelain --cached`; `--cached` is not an option of `git status`, which rejects it with exit status 129 before printing anything | any repository with staged files: the status text is `""`, so `generate_commit_messages` finds no staged file and offers only the filler messages | run `git status --porcelain` | not executed | `CommitGenerator.CachedStatusOnlyFillers` | `CommitGenerator.StatusCallSeesStagedFiles` |
| commiter/interactive.py:57-62 | `display_git_status` runs the same `git status --porcelain --cached` call | any repository: the display prints `Error getting git status` instead of the staged files | run `git status --porcelain` | not executed | `Interactive.CachedStatusShowsError` | `Interactive.StatusCallShowsRows` |
