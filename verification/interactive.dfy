/**
 * The terminal prompts: picking one of the generated messages, typing a
 * custom message, and the symbols of the staged-changes display. Each
 * prompt answer is the text the user typed; an empty answer stands for the
 * prompt's default, as the prompt library substitutes it.
 */
module Interactive {
  import opened Wrappers
  import opened PyStr
  import opened Porcelain
  import GitOperations

  /** The default answer of the option prompt. */
  const DefaultChoice := "1"

  /** The text a prompt hands back for a typed answer: the default when nothing was typed. */
  function Answer(typed: string, default: string): string {
    if typed == "" then default else typed
  }

  /** The 0-based index one answer selects among `n` options, or `None` when the prompt asks again. */
  function Accepts(n: nat, typed: string): (r: Option<nat>)
    ensures r.Some? <==> PyInt(Answer(typed, DefaultChoice)).Some? && 1 <= PyInt(Answer(typed, DefaultChoice)).value <= n
    ensures r.Some? ==> r.value < n && PyInt(Answer(typed, DefaultChoice)) == Some(r.value + 1)
  {
    match PyInt(Answer(typed, DefaultChoice))
    case Some(v) => if 1 <= v <= n then Some(v - 1) else None
    case None => None
  }

  /**
   * `display_commit_choices` over the answers the user gives in turn: the
   * first acceptable answer decides, and every earlier one made the prompt
   * ask again. `None` when the answers run out first (the prompt keeps asking).
   */
  function SelectChoice(n: nat, answers: seq<string>): (r: Option<nat>)
    ensures r.Some? ==> r.value < n
    ensures r.Some? ==> exists j :: 0 <= j < |answers| && Accepts(n, answers[j]) == r &&
                          forall i :: 0 <= i < j ==> Accepts(n, answers[i]).None?
    ensures r.None? <==> forall j :: 0 <= j < |answers| ==> Accepts(n, answers[j]).None?
  {
    var f := (a: string) => Accepts(n, a);
    var r := FirstSome(f, answers);
    assert forall j :: 0 <= j < |answers| ==> f(answers[j]) == Accepts(n, answers[j]);
    r
  }

  /** The first answer `f` accepts, if any. */
  function FirstSome(f: string -> Option<nat>, answers: seq<string>): (r: Option<nat>)
    ensures r.Some? ==> exists j :: 0 <= j < |answers| && f(answers[j]) == r &&
                          forall i :: 0 <= i < j ==> f(answers[i]).None?
    ensures r.None? <==> forall j :: 0 <= j < |answers| ==> f(answers[j]).None?
  {
    if answers == [] then None
    else if f(answers[0]).Some? then f(answers[0])
    else
      var r := FirstSome(f, answers[1..]);
      assert forall j :: 1 <= j < |answers| ==> answers[j] == answers[1..][j - 1];
      assert r.Some? ==> exists j :: 0 <= j < |answers[1..]| && f(answers[1..][j]) == r &&
                          forall i :: 0 <= i < j ==> f(answers[1..][i]).None?;
      r
  }

  /** Typing the number `k` of an offered option selects it. */
  lemma TypedNumberSelects(n: nat, k: int)
    requires 1 <= k <= n
    ensures Accepts(n, IntToString(k)) == Some(k - 1)
  {
    IntRoundTrip(k);
    assert IntToString(k) != "";
  }

  /** Accepting the default picks the first option. */
  lemma DefaultSelectsFirst(n: nat)
    requires n >= 1
    ensures Accepts(n, "") == Some(0)
  {
    TypedNumberSelects(n, 1);
  }

  /** An answer that is no number, or out of range, is never taken: the choice comes from a later answer. */
  lemma RejectedAnswerSkipped(n: nat, a: string, rest: seq<string>)
    requires PyInt(Answer(a, DefaultChoice)).None? || !(1 <= PyInt(Answer(a, DefaultChoice)).value <= n)
    ensures SelectChoice(n, [a] + rest) == SelectChoice(n, rest)
  {
    assert ([a] + rest)[1..] == rest;
  }

  /** `ask_for_custom_message`: `None` for a blank answer, otherwise the answer stripped. */
  function CustomMessage(typed: string): (r: Option<string>)
    ensures r.None? <==> forall k :: 0 <= k < |typed| ==> typed[k] in Whitespace
    ensures r.Some? ==> r.value == Trim(typed) && r.value != ""
    ensures r.Some? ==> r.value[0] !in Whitespace && r.value[|r.value| - 1] !in Whitespace
  {
    var m := Trim(typed);
    if m == "" then None else Some(m)
  }

  /** The sign `display_git_status` shows for each kind of staged change. */
  function StatusSymbol(tag: StatusTag): char {
    match tag
    case Added => '+'
    case Modified => '~'
    case Deleted => '-'
    case Renamed => '→'
  }

  /** The colour of that sign. */
  function StatusColor(tag: StatusTag): string {
    match tag
    case Added => "green"
    case Modified => "yellow"
    case Deleted => "red"
    case Renamed => "blue"
  }

  /** Different kinds of change never share a sign. */
  lemma SymbolsDistinct(a: StatusTag, b: StatusTag)
    requires a != b
    ensures StatusSymbol(a) != StatusSymbol(b)
  {
  }

  const StagedHeader := "Staged changes:"
  const NoStagedNotice := "No staged changes found"
  const StatusFailed := "Error getting git status"
  const GitMissing := "Git not found"

  /**
   * The status display of a successful `git status --porcelain --cached`:
   * the header, then one row per staged line (sign, then file name), or
   * the "nothing staged" notice alone.
   */
  function StatusRows(status: string): (r: seq<string>)
    ensures StagedEntries(status) == [] ==> r == [NoStagedNotice]
    ensures StagedEntries(status) != [] ==>
              |r| == |StagedEntries(status)| + 1 && r[0] == StagedHeader &&
              forall k :: 0 <= k < |StagedEntries(status)| ==>
                r[k + 1] == "  " + [StatusSymbol(StagedEntries(status)[k].tag)] + " " + StagedEntries(status)[k].path
  {
    var es := StagedEntries(status);
    if es == [] then [NoStagedNotice] else [StagedHeader] + Rows(es)
  }

  /**
   * `show_staged_files` on the outcome of the status call: a non-zero exit
   * (`check=True`) prints the error line, a missing git its own line, and a
   * successful run the status display. File rows appear only after a
   * successful run that lists a staged line.
   */
  function ShowStagedFiles(p: GitOperations.Process): (r: seq<string>)
    ensures p.NotFound? ==> r == [GitMissing]
    ensures p.Completed? && p.code != 0 ==> r == [StatusFailed]
    ensures p.Completed? && p.code == 0 ==> r == StatusRows(p.stdout)
    ensures |r| > 1 <==> p.Completed? && p.code == 0 && StagedEntries(p.stdout) != []
  {
    match p
    case NotFound => [GitMissing]
    case Completed(code, out, _) => if code != 0 then [StatusFailed] else StatusRows(out)
  }

  /** As issued, with `--cached`: git rejects the call and the display is the error line alone, whatever is staged. */
  lemma CachedStatusShowsError(git: seq<string> -> GitOperations.Process)
    requires git(CachedStatusCall).Completed? && git(CachedStatusCall).code != 0
    ensures ShowStagedFiles(git(CachedStatusCall)) == [StatusFailed]
  {
  }

  /** Issued without `--cached`: a successful listing with staged lines shows the header and one row per staged line. */
  lemma StatusCallShowsRows(git: seq<string> -> GitOperations.Process)
    requires git(StatusCall).Completed? && git(StatusCall).code == 0
    requires StagedEntries(git(StatusCall).stdout) != []
    ensures var es := StagedEntries(git(StatusCall).stdout);
            var r := ShowStagedFiles(git(StatusCall));
            |r| == |es| + 1 && r[0] == StagedHeader &&
            forall k :: 0 <= k < |es| ==> r[k + 1] == "  " + [StatusSymbol(es[k].tag)] + " " + es[k].path
  {
  }

  function Rows(es: seq<StagedChange>): (r: seq<string>)
    ensures |r| == |es|
    ensures forall k :: 0 <= k < |r| ==> r[k] == "  " + [StatusSymbol(es[k].tag)] + " " + es[k].path
  {
    if es == [] then []
    else ["  " + [StatusSymbol(es[0].tag)] + " " + es[0].path] + Rows(es[1..])
  }
}
