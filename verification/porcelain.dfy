/**
 * Reading `git status --porcelain` output. Both the status display and the
 * heuristic message generator keep the lines of the stripped output whose
 * first character is one of A, M, D, R, and take the file name from the
 * fourth character on, stripped.
 */
module Porcelain {
  import opened Wrappers
  import opened PyStr

  /**
   * The status call the program issues, and the same call without
   * `--cached`, which `git status` has no option for: git rejects the first
   * with exit status 129 before printing any status.
   */
  const CachedStatusCall: seq<string> := ["git", "status", "--porcelain", "--cached"]
  const StatusCall: seq<string> := ["git", "status", "--porcelain"]

  /** The status letters the program recognises. */
  datatype StatusTag = Added | Modified | Deleted | Renamed

  /** One staged file as the status display shows it. */
  datatype StagedChange = StagedChange(tag: StatusTag, path: string)

  function TagOf(c: char): (r: Option<StatusTag>)
    ensures r.Some? <==> c in {'A', 'M', 'D', 'R'}
  {
    match c
    case 'A' => Some(Added)
    case 'M' => Some(Modified)
    case 'D' => Some(Deleted)
    case 'R' => Some(Renamed)
    case _ => None
  }

  /** A line both parsers accept: non-empty, with a status letter first. */
  predicate IsStagedLine(line: string) {
    line != "" && TagOf(line[0]).Some?
  }

  /** The entry of an accepted line: its letter and `line[3:].strip()`. */
  function EntryOf(line: string): StagedChange
    requires IsStagedLine(line)
  {
    StagedChange(TagOf(line[0]).value, Trim(PySuffix(line, 3)))
  }

  /** The entry of a line both parsers accept, or nothing. */
  function StagedEntry(line: string): (r: Option<StagedChange>)
    ensures r.Some? <==> IsStagedLine(line)
    ensures r.Some? ==> r.value == EntryOf(line)
  {
    if IsStagedLine(line) then Some(EntryOf(line)) else None
  }

  /**
   * The entries of the accepted lines, in line order: entry `a` comes from
   * line `Origins(StagedEntry, lines)[a]`, an accepted line, and those line
   * numbers strictly increase, so no line gives two entries and the order
   * is kept.
   */
  function EntriesOf(lines: seq<string>): (r: seq<StagedChange>)
    ensures |r| == |Origins(StagedEntry, lines)| <= |lines|
    ensures forall a :: 0 <= a < |r| ==>
              Origins(StagedEntry, lines)[a] < |lines| && IsStagedLine(lines[Origins(StagedEntry, lines)[a]]) &&
              r[a] == EntryOf(lines[Origins(StagedEntry, lines)[a]])
  {
    Collect(StagedEntry, lines)
  }

  /** Every accepted line gives an entry: it is among the origins, and its entry is listed. */
  lemma EntriesComplete(lines: seq<string>, k: nat)
    requires k < |lines| && IsStagedLine(lines[k])
    ensures k in Origins(StagedEntry, lines)
    ensures EntryOf(lines[k]) in EntriesOf(lines)
  {
    OriginsComplete(StagedEntry, lines, k);
    CollectHas(StagedEntry, lines, k);
  }

  /** The staged entries of a porcelain status text: its stripped lines split at `\n`. */
  function StagedEntries(status: string): seq<StagedChange> {
    EntriesOf(Split(Trim(status), '\n'))
  }
}
