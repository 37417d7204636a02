/**
 * The heuristic message generator used when the language model is not
 * consulted, and the editor-based message reader. The staged diff and the
 * porcelain status come in as text: the git calls that produce them return
 * the empty string on failure, so failure and "nothing there" look alike.
 */
module CommitGenerator {
  import opened Wrappers
  import opened PyStr
  import opened Porcelain
  import GitOperations

  const PythonSuffixes: seq<string> := [".py"]
  const ScriptSuffixes: seq<string> := [".js", ".ts", ".jsx", ".tsx"]
  const ConfigSuffixes: seq<string> := [".json", ".yaml", ".yml", ".toml", ".ini"]
  const DocSuffixes: seq<string> := [".md", ".txt", ".rst"]

  const NothingStaged := "No staged changes found"

  /** The file names of the staged lines of a porcelain status, in line order (see StagedFilesInOrder). */
  function StagedFiles(status: string): (r: seq<string>)
    ensures |r| == |StagedEntries(status)|
    ensures forall k :: 0 <= k < |r| ==> r[k] == StagedEntries(status)[k].path
  {
    Paths(StagedEntries(status))
  }

  /**
   * Name `a` is `line[3:].strip()` of the `a`-th accepted line of the
   * stripped status, and accepted lines are taken in increasing line order.
   */
  lemma StagedFilesInOrder(status: string)
    ensures var lines := Split(Trim(status), '\n');
            var idx := Origins(StagedEntry, lines);
            var r := StagedFiles(status);
            |r| == |idx| &&
            (forall a :: 0 <= a < |r| ==> idx[a] < |lines| && IsStagedLine(lines[idx[a]]) &&
                                          r[a] == Trim(PySuffix(lines[idx[a]], 3))) &&
            (forall a, b :: 0 <= a < b < |idx| ==> idx[a] < idx[b])
  {
  }

  function Paths(es: seq<StagedChange>): (r: seq<string>)
    ensures |r| == |es|
    ensures forall k :: 0 <= k < |r| ==> r[k] == es[k].path
  {
    if es == [] then [] else [es[0].path] + Paths(es[1..])
  }

  /** A file a bucket keeps: itself, when it ends with one of the suffixes. */
  function KeepSuffixed(suffixes: seq<string>): string -> Option<string> {
    f => if EndsWithAny(f, suffixes) then Some(f) else None
  }

  /**
   * The list comprehension of one bucket: the files ending with one of
   * `suffixes`, each as often as it is staged and in staged order, since
   * entry `a` is the file at the strictly increasing position
   * `Origins(KeepSuffixed(suffixes), files)[a]`.
   */
  function Matching(files: seq<string>, suffixes: seq<string>): (r: seq<string>)
    ensures |r| <= |files|
    ensures forall f :: f in r <==> f in files && EndsWithAny(f, suffixes)
    ensures (forall k :: 0 <= k < |files| ==> EndsWithAny(files[k], suffixes)) ==> r == files
    ensures (forall k :: 0 <= k < |files| ==> !EndsWithAny(files[k], suffixes)) ==> r == []
  {
    MatchingFacts(files, suffixes);
    Collect(KeepSuffixed(suffixes), files)
  }

  lemma MatchingFacts(files: seq<string>, suffixes: seq<string>)
    ensures var keep := KeepSuffixed(suffixes);
            var r := Collect(keep, files);
            var idx := Origins(keep, files);
            (forall a :: 0 <= a < |r| ==> r[a] == files[idx[a]] && EndsWithAny(r[a], suffixes)) &&
            (forall f :: f in r <==> f in files && EndsWithAny(f, suffixes)) &&
            ((forall k :: 0 <= k < |files| ==> EndsWithAny(files[k], suffixes)) ==> r == files) &&
            ((forall k :: 0 <= k < |files| ==> !EndsWithAny(files[k], suffixes)) ==> r == [])
  {
    var keep := KeepSuffixed(suffixes);
    var r := Collect(keep, files);
    var idx := Origins(keep, files);
    forall a | 0 <= a < |r|
      ensures r[a] == files[idx[a]] && EndsWithAny(r[a], suffixes)
    {
      assert keep(files[idx[a]]) == Some(r[a]);
    }
    forall f | f in files && EndsWithAny(f, suffixes)
      ensures f in r
    {
      var k :| 0 <= k < |files| && files[k] == f;
      assert keep(files[k]) == Some(f);
      CollectHas(keep, files, k);
    }
    forall f | f in r
      ensures f in files && EndsWithAny(f, suffixes)
    {
      var a :| 0 <= a < |r| && r[a] == f;
    }
    if forall k :: 0 <= k < |files| ==> EndsWithAny(files[k], suffixes) {
      assert forall k :: 0 <= k < |files| ==> keep(files[k]) == Some(files[k]);
      CollectIdentity(keep, files);
    }
    if forall k :: 0 <= k < |files| ==> !EndsWithAny(files[k], suffixes) {
      assert forall k :: 0 <= k < |files| ==> keep(files[k]).None?;
      CollectNothing(keep, files);
    }
  }

  /**
   * A bucket keeps its files in staged order, each as often as it is staged:
   * entry `a` is the file at position `Origins(KeepSuffixed(suffixes), files)[a]`,
   * and those positions strictly increase.
   */
  lemma MatchingInOrder(files: seq<string>, suffixes: seq<string>)
    ensures var r := Matching(files, suffixes);
            var idx := Origins(KeepSuffixed(suffixes), files);
            |r| == |idx| &&
            (forall a :: 0 <= a < |r| ==> idx[a] < |files| && r[a] == files[idx[a]] && EndsWithAny(r[a], suffixes)) &&
            (forall a, b :: 0 <= a < b < |idx| ==> idx[a] < idx[b])
  {
    MatchingFacts(files, suffixes);
  }

  /** No matching position is skipped: every staged file with one of the suffixes is kept from its own position. */
  lemma MatchingComplete(files: seq<string>, suffixes: seq<string>, k: nat)
    requires k < |files| && EndsWithAny(files[k], suffixes)
    ensures k in Origins(KeepSuffixed(suffixes), files)
  {
    assert KeepSuffixed(suffixes)(files[k]).Some?;
    OriginsComplete(KeepSuffixed(suffixes), files, k);
  }

  /** The message of one file-type bucket: none when empty, the file when alone, a count otherwise. */
  function BucketMessage(bucket: seq<string>, kind: string): (r: seq<string>)
    ensures bucket == [] <==> r == []
    ensures |bucket| == 1 ==> r == ["Update " + bucket[0]]
    ensures |bucket| >= 2 ==> r == ["Update " + NatToString(|bucket|) + " " + kind]
  {
    if bucket == [] then []
    else if |bucket| == 1 then ["Update " + bucket[0]]
    else ["Update " + NatToString(|bucket|) + " " + kind]
  }

  /** A fixed message when the bucket is not empty. */
  function FlagMessage(bucket: seq<string>, message: string): (r: seq<string>)
    ensures bucket == [] <==> r == []
    ensures r != [] ==> r == [message]
  {
    if bucket == [] then [] else [message]
  }

  /** The closing message about all staged files, single or counted. */
  function GenericMessage(files: seq<string>): string
    requires files != []
  {
    if |files| == 1 then "Modify " + files[0] else "Update " + NatToString(|files|) + " files"
  }

  /**
   * The file-based messages: Python, JavaScript/TypeScript, configuration and
   * documentation buckets in that order, each at most once, then the generic
   * message; nothing at all when no file is staged.
   */
  function Summaries(files: seq<string>): (r: seq<string>)
    ensures files == [] <==> r == []
    ensures files != [] ==> 1 <= |r| <= 5 && r[|r| - 1] == GenericMessage(files)
  {
    if files == [] then []
    else
      BucketMessage(Matching(files, PythonSuffixes), "Python files")
      + BucketMessage(Matching(files, ScriptSuffixes), "JavaScript/TypeScript files")
      + FlagMessage(Matching(files, ConfigSuffixes), "Update configuration files")
      + FlagMessage(Matching(files, DocSuffixes), "Update documentation")
      + [GenericMessage(files)]
  }

  /** Some staged file ends with one of `suffixes`. */
  ghost predicate HasKind(files: seq<string>, suffixes: seq<string>) {
    exists k :: 0 <= k < |files| && EndsWithAny(files[k], suffixes)
  }

  /** One place in the list when the condition holds, none otherwise. */
  function Slot(b: bool): nat {
    if b then 1 else 0
  }

  lemma BucketNonEmpty(files: seq<string>, suffixes: seq<string>)
    ensures Matching(files, suffixes) != [] <==> HasKind(files, suffixes)
  {
    var r := Matching(files, suffixes);
    if r != [] {
      assert r[0] in r;
    }
    if HasKind(files, suffixes) {
      var k :| 0 <= k < |files| && EndsWithAny(files[k], suffixes);
      assert files[k] in files;
    }
  }

  /**
   * The summaries by kind of file: one message for each non-empty bucket
   * (a bucket is non-empty exactly when some staged file is of its kind, see
   * BucketNonEmpty), in the order Python, JavaScript/TypeScript,
   * configuration, documentation, and the generic message last.
   */
  lemma SummariesByKind(files: seq<string>)
    requires files != []
    ensures var r := Summaries(files);
            var py := Matching(files, PythonSuffixes) != [];
            var js := Matching(files, ScriptSuffixes) != [];
            var cf := Matching(files, ConfigSuffixes) != [];
            var dc := Matching(files, DocSuffixes) != [];
            |r| == Slot(py) + Slot(js) + Slot(cf) + Slot(dc) + 1 &&
            (py ==> [r[0]] == BucketMessage(Matching(files, PythonSuffixes), "Python files")) &&
            (js ==> [r[Slot(py)]] == BucketMessage(Matching(files, ScriptSuffixes), "JavaScript/TypeScript files")) &&
            (cf ==> [r[Slot(py) + Slot(js)]] == ["Update configuration files"]) &&
            (dc ==> [r[Slot(py) + Slot(js) + Slot(cf)]] == ["Update documentation"]) &&
            r[|r| - 1] == GenericMessage(files)
  {
    Arranged(Matching(files, PythonSuffixes), Matching(files, ScriptSuffixes),
             Matching(files, ConfigSuffixes), Matching(files, DocSuffixes), GenericMessage(files));
  }

  /** Where each bucket's message lands in the summaries, whatever the buckets hold. */
  lemma Arranged(py: seq<string>, js: seq<string>, cf: seq<string>, dc: seq<string>, g: string)
    ensures var r := BucketMessage(py, "Python files") + BucketMessage(js, "JavaScript/TypeScript files")
                     + FlagMessage(cf, "Update configuration files") + FlagMessage(dc, "Update documentation") + [g];
            |r| == Slot(py != []) + Slot(js != []) + Slot(cf != []) + Slot(dc != []) + 1 &&
            (py != [] ==> [r[0]] == BucketMessage(py, "Python files")) &&
            (js != [] ==> [r[Slot(py != [])]] == BucketMessage(js, "JavaScript/TypeScript files")) &&
            (cf != [] ==> [r[Slot(py != []) + Slot(js != [])]] == ["Update configuration files"]) &&
            (dc != [] ==> [r[Slot(py != []) + Slot(js != []) + Slot(cf != [])]] == ["Update documentation"]) &&
            r[|r| - 1] == g
  {
    Layout(BucketMessage(py, "Python files"), BucketMessage(js, "JavaScript/TypeScript files"),
           FlagMessage(cf, "Update configuration files"), FlagMessage(dc, "Update documentation"), g);
  }

  /** Where each part lands in `a + b + c + d + [g]` when every part has at most one entry. */
  lemma Layout(a: seq<string>, b: seq<string>, c: seq<string>, d: seq<string>, g: string)
    requires |a| <= 1 && |b| <= 1 && |c| <= 1 && |d| <= 1
    ensures var r := a + b + c + d + [g];
            |r| == |a| + |b| + |c| + |d| + 1 &&
            (a != [] ==> [r[0]] == a) &&
            (b != [] ==> [r[|a|]] == b) &&
            (c != [] ==> [r[|a| + |b|]] == c) &&
            (d != [] ==> [r[|a| + |b| + |c|]] == d) &&
            r[|r| - 1] == g
  {
  }

  /** The filler message at position `k` (0-based) of the list. */
  function PadMessage(k: nat): string {
    "Commit staged changes (" + NatToString(k + 1) + ")"
  }

  /** The filler messages for positions `from` up to, not including, `to`. */
  function Fillers(from: nat, to: nat): (r: seq<string>)
    decreases to - from
    ensures |r| == if to > from then to - from else 0
    ensures forall k :: 0 <= k < |r| ==> r[k] == PadMessage(from + k)
  {
    if to <= from then [] else [PadMessage(from)] + Fillers(from + 1, to)
  }

  /** The list grown with filler messages until it holds `count` entries; never shortened. */
  function Pad(ms: seq<string>, count: int): (r: seq<string>)
    ensures |r| == if count > |ms| then count else |ms|
    ensures r[..|ms|] == ms
    ensures forall k :: |ms| <= k < |r| ==> r[k] == PadMessage(k)
    decreases count - |ms|
  {
    if |ms| >= count then ms
    else
      var r := Pad(ms + [PadMessage(|ms|)], count);
      assert r[..|ms|] == r[..|ms| + 1][..|ms|];
      r
  }

  /**
   * `generate_commit_messages(count)`: with neither a diff nor a status, the
   * single "nothing staged" message whatever the count; otherwise the file
   * summaries padded up to `count` and cut with `messages[:count]`, so a
   * negative count drops that many entries from the end.
   */
  function GenerateMessages(diff: string, status: string, count: int): (r: seq<string>)
    ensures diff == "" && status == "" ==> r == [NothingStaged]
    ensures !(diff == "" && status == "") && count >= 0 ==> |r| == count
    ensures !(diff == "" && status == "") && count < 0 ==>
              var s := Summaries(StagedFiles(status));
              r == PyPrefix(s, count) && |r| == (if |s| + count > 0 then |s| + count else 0)
    ensures !(diff == "" && status == "") ==>
              var s := Summaries(StagedFiles(status));
              var n := if |r| < |s| then |r| else |s|;
              r == s[..n] + Fillers(|s|, |r|)
  {
    if diff == "" && status == "" then [NothingStaged]
    else
      Finish(Summaries(StagedFiles(status)), count)
  }

  /** `messages[:count]` after padding to `count`. */
  function Finish(s: seq<string>, count: int): (r: seq<string>)
    ensures count >= 0 ==> |r| == count
    ensures count < 0 ==> r == PyPrefix(s, count) && |r| == (if |s| + count > 0 then |s| + count else 0)
    ensures var n := if |r| < |s| then |r| else |s|; r == s[..n] + Fillers(|s|, |r|)
  {
    FinishLength(s, count);
    FinishLayout(s, count);
    PyPrefix(Pad(s, count), count)
  }

  /** How many messages remain after the cut, and that a negative count only cuts the summaries. */
  lemma FinishLength(s: seq<string>, count: int)
    ensures var r := PyPrefix(Pad(s, count), count);
            (count >= 0 ==> |r| == count) &&
            (count < 0 ==> r == PyPrefix(s, count) && |r| == (if |s| + count > 0 then |s| + count else 0))
  {
    if count < 0 {
      assert Pad(s, count) == Pad(s, count)[..|s|];
    }
  }

  /** After the cut, what is left of the summaries comes first and the fillers after. */
  lemma FinishLayout(s: seq<string>, count: int)
    ensures var r := PyPrefix(Pad(s, count), count);
            var n := if |r| < |s| then |r| else |s|;
            r == s[..n] + Fillers(|s|, |r|)
  {
    var padded := Pad(s, count);
    PaddedWithFillers(s, count);
    var r := PyPrefix(padded, count);
    assert r == padded[..|r|];
    PrefixOfConcat(s, Fillers(|s|, |padded|), |r|);
    if |r| > |s| {
      FillersPrefix(|s|, |padded|, |r|);
    }
  }

  /** A prefix of `a + b` is a prefix of `a`, followed by a prefix of `b` once `a` is used up. */
  lemma PrefixOfConcat<T>(a: seq<T>, b: seq<T>, m: nat)
    requires m <= |a| + |b|
    ensures m <= |a| ==> (a + b)[..m] == a[..m]
    ensures m > |a| ==> (a + b)[..m] == a + b[..m - |a|]
  {
    if m <= |a| {
      assert (a + b)[..m] == a[..m];
    } else {
      assert (a + b)[..m] == a + b[..m - |a|];
    }
  }

  /** The padded list is the list followed by the fillers for the positions after it. */
  lemma PaddedWithFillers(ms: seq<string>, count: int)
    ensures Pad(ms, count) == ms + Fillers(|ms|, |Pad(ms, count)|)
  {
    var r := Pad(ms, count);
    var f := Fillers(|ms|, |r|);
    assert forall k :: 0 <= k < |ms| ==> r[k] == r[..|ms|][k];
    assert forall k :: 0 <= k < |r| ==> r[k] == (ms + f)[k];
  }

  /** The first fillers of a run of fillers are the fillers of the shorter run. */
  lemma FillersPrefix(from: nat, to: nat, m: nat)
    requires from <= m <= to
    ensures Fillers(from, to)[..m - from] == Fillers(from, m)
  {
    var a := Fillers(from, to)[..m - from];
    var b := Fillers(from, m);
    assert forall k :: 0 <= k < |a| ==> a[k] == b[k];
  }

  // ---------------------------------------------------------------- status call

  /**
   * `get_git_status` issuing `argv`: the output of a successful run, the
   * empty text when git ends with an error status (`check=True`), and a
   * raised `FileNotFoundError` when git is missing, which it does not catch.
   */
  function StatusText(argv: seq<string>, git: seq<string> -> GitOperations.Process): (r: Result<string, string>)
    ensures git(argv).NotFound? <==> r == Err(FileNotFound)
    ensures git(argv).Completed? && git(argv).code != 0 ==> r == Ok("")
    ensures git(argv).Completed? && git(argv).code == 0 ==> r == Ok(git(argv).stdout)
  {
    match git(argv)
    case NotFound => Err(FileNotFound)
    case Completed(code, out, _) => if code != 0 then Ok("") else Ok(out)
  }

  /** An empty status lists no staged file. */
  lemma EmptyStatusNoFiles()
    ensures StagedFiles("") == []
  {
    assert Split(Trim(""), '\n') == [""];
    CollectNothing(StagedEntry, [""]);
  }

  /**
   * As issued, with `--cached`: git rejects the call, the generator reads an
   * empty status, and with a staged diff it offers only filler messages,
   * whatever is staged.
   */
  lemma CachedStatusOnlyFillers(diff: string, git: seq<string> -> GitOperations.Process, count: int)
    requires diff != ""
    requires git(CachedStatusCall).Completed? && git(CachedStatusCall).code != 0
    ensures StatusText(CachedStatusCall, git) == Ok("")
    ensures forall k :: 0 <= k < |GenerateMessages(diff, "", count)| ==>
              GenerateMessages(diff, "", count)[k] == PadMessage(k)
  {
    EmptyStatusNoFiles();
    NoFilesMeansFiller(diff, "", count);
  }

  /**
   * Issued without `--cached`: a successful call hands its listing to the
   * generator, and the messages open with the file summaries of its staged
   * lines, as far as the count reaches.
   */
  lemma StatusCallSeesStagedFiles(diff: string, git: seq<string> -> GitOperations.Process, count: int)
    requires git(StatusCall).Completed? && git(StatusCall).code == 0
    requires StagedFiles(git(StatusCall).stdout) != [] && count >= 0
    ensures StatusText(StatusCall, git) == Ok(git(StatusCall).stdout)
    ensures var status := git(StatusCall).stdout;
            var s := Summaries(StagedFiles(status));
            var n := if count < |s| then count else |s|;
            GenerateMessages(diff, status, count)[..n] == s[..n]
  {
    var status := git(StatusCall).stdout;
    if status == "" {
      EmptyStatusNoFiles();
    }
    var s := Summaries(StagedFiles(status));
    var r := GenerateMessages(diff, status, count);
    var n := if count < |s| then count else |s|;
    assert r == s[..n] + Fillers(|s|, |r|);
    assert r[..n] == s[..n];
  }

  /** The diff matters only through being empty: any two non-empty diffs give the same messages. */
  lemma DiffOnlyGatesGeneration(d1: string, d2: string, status: string, count: int)
    requires (d1 == "") == (d2 == "")
    ensures GenerateMessages(d1, status, count) == GenerateMessages(d2, status, count)
  {
  }

  /** A staged diff with no recognised status lines gives only filler messages. */
  lemma NoFilesMeansFiller(diff: string, status: string, count: int)
    requires diff != "" && StagedFiles(status) == []
    ensures forall k :: 0 <= k < |GenerateMessages(diff, status, count)| ==>
              GenerateMessages(diff, status, count)[k] == PadMessage(k)
  {
  }

  /** A lone Python file gives its own update message and then the generic one. */
  lemma SinglePythonFile(f: string)
    requires EndsWith(f, ".py")
    requires !EndsWithAny(f, ScriptSuffixes) && !EndsWithAny(f, ConfigSuffixes) && !EndsWithAny(f, DocSuffixes)
    ensures Summaries([f]) == ["Update " + f, "Modify " + f]
  {
    assert EndsWithAny(f, PythonSuffixes) by {
      assert EndsWith(f, PythonSuffixes[0]);
    }
    assert Matching([f], PythonSuffixes) == [f];
  }

  // ---------------------------------------------------------------- editor message

  /** A message line: not blank, not a `#` comment, and with no blank at either end. */
  predicate MessageLine(m: string) {
    m != "" && m[0] != '#' && Trim(m) == m
  }

  /** One line of the edited file: stripped, and kept unless blank or a comment. */
  function KeepLine(line: string): (r: Option<string>)
    ensures r.Some? ==> MessageLine(r.value) && ('\n' !in line ==> '\n' !in r.value)
    ensures r.None? <==> Trim(line) == "" || Trim(line)[0] == '#'
    ensures r.Some? ==> r.value == Trim(line)
  {
    var t := Trim(line);
    if t != "" && !StartsWith(t, "#") then
      KeptLine(line);
      Some(t)
    else
      assert t != "" ==> t[..1] == [t[0]];
      None
  }

  lemma KeptLine(line: string)
    requires Trim(line) != "" && !StartsWith(Trim(line), "#")
    ensures MessageLine(Trim(line))
    ensures '\n' !in line ==> '\n' !in Trim(line)
  {
    var t := Trim(line);
    assert t[..1] == [t[0]];
    TrimIdempotent(line);
    if '\n' !in line {
      InfixAvoids(t, line, '\n');
    }
  }

  /** The lines of the edited file that form the message, in file order. */
  function KeptLines(lines: seq<string>): seq<string> {
    Collect(KeepLine, lines)
  }

  /** Every kept line is a message line, and free of newlines when the file lines are. */
  lemma KeptLinesClean(lines: seq<string>)
    ensures forall k :: 0 <= k < |KeptLines(lines)| ==> MessageLine(KeptLines(lines)[k])
    ensures (forall j :: 0 <= j < |lines| ==> '\n' !in lines[j]) ==>
              forall k :: 0 <= k < |KeptLines(lines)| ==> '\n' !in KeptLines(lines)[k]
  {
    var r := KeptLines(lines);
    var idx := Origins(KeepLine, lines);
    forall k | 0 <= k < |r|
      ensures MessageLine(r[k]) && ('\n' !in lines[idx[k]] ==> '\n' !in r[k])
    {
      assert KeepLine(lines[idx[k]]) == Some(r[k]);
    }
  }

  /** Every file line that is not blank and not a comment reaches the message, stripped. */
  lemma KeptLinesComplete(lines: seq<string>, j: nat)
    requires j < |lines| && Trim(lines[j]) != "" && Trim(lines[j])[0] != '#'
    ensures Trim(lines[j]) in KeptLines(lines)
  {
    CollectHas(KeepLine, lines, j);
  }

  /**
   * How the editor run on the message file ends: it exits cleanly and leaves
   * `text` in the file, it exits with an error status, or the editor program
   * cannot be found at all.
   */
  datatype EditorRun = Edited(text: string) | EditorFailed | EditorMissing

  /** The exception a missing program raises when the caller does not catch it. */
  const FileNotFound := "FileNotFoundError"

  /**
   * `get_commit_message_from_user`: an editor that exits with an error status
   * gives no message, a missing editor program raises; otherwise the kept
   * lines joined with newlines, or no message when no line is kept.
   */
  function EditorMessage(run: EditorRun): (r: Result<Option<string>, string>)
    ensures run.EditorMissing? <==> r == Err(FileNotFound)
    ensures run.EditorFailed? ==> r == Ok(None)
    ensures run.Edited? ==> r.Ok? && (r.value.None? <==> KeptLines(Split(run.text, '\n')) == [])
    ensures r.Ok? && r.value.Some? ==> run.Edited? && Split(r.value.value, '\n') == KeptLines(Split(run.text, '\n'))
  {
    match run
    case EditorMissing => Err(FileNotFound)
    case EditorFailed => Ok(None)
    case Edited(text) =>
      var kept := KeptLines(Split(text, '\n'));
      if kept == [] then Ok(None)
      else
        KeptLinesClean(Split(text, '\n'));
        SplitJoin(kept, '\n');
        Ok(Some(Join(kept, "\n")))
  }

  /** After an edit that keeps some line there is a message, and every line of it is stripped, non-blank and not a comment. */
  lemma EditorMessageLines(run: EditorRun)
    requires run.Edited? && KeptLines(Split(run.text, '\n')) != []
    ensures EditorMessage(run).Ok? && EditorMessage(run).value.Some?
    ensures var ls := Split(EditorMessage(run).value.value, '\n');
            forall k :: 0 <= k < |ls| ==> MessageLine(ls[k])
  {
    KeptLinesClean(Split(run.text, '\n'));
  }
}
