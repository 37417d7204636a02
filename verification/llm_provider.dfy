/**
 * The language-model provider: the prompt sent to the Ollama backend and the
 * parser that turns its free-text reply into a bounded list of commit
 * message candidates. The HTTP exchange itself is an oracle `ask` that maps a
 * request to the reply text, or to `None` when the transport, the JSON
 * decoding or the backend reports an error.
 */
module LlmProvider {
  import opened Wrappers
  import opened PyStr

  const DefaultModel := "llama3.2"
  const DefaultBaseUrl := "http://localhost:11434"

  /** An `OllamaProvider` client: the model it asks for and the server it talks to. */
  datatype Ollama = Ollama(model: string, baseUrl: string)

  /** A generation request as the client posts it. */
  datatype Request = Request(url: string, model: string, prompt: string)

  /** `LLMProvider(provider, model, base_url=...)`: only the Ollama provider exists. */
  function MakeProvider(provider: string, model: string, baseUrl: Option<string>): (r: Result<Ollama, string>)
    ensures r.Ok? <==> provider == "ollama"
    ensures r.Ok? ==> r.value == Ollama(model, baseUrl.GetOr(DefaultBaseUrl))
    ensures r.Err? ==> r.error == "Unsupported LLM provider: " + provider
  {
    if provider == "ollama" then Ok(Ollama(model, baseUrl.GetOr(DefaultBaseUrl)))
    else Err("Unsupported LLM provider: " + provider)
  }

  // ---------------------------------------------------------------- prompt

  /** Longest diff embedded in a prompt as is. */
  const DiffLimit := 2000
  const TruncationMarker := "\n... (truncated)"

  /** The diff as the prompt carries it: cut to `DiffLimit` characters and marked when longer. */
  function EmbeddedDiff(diff: string): string {
    if |diff| > DiffLimit then diff[..DiffLimit] + TruncationMarker else diff
  }

  /** The prompt text before the diff: the introduction and the formatting rules, one per line. */
  function PromptHead(maxChoices: int): string {
    Join(PromptIntro(maxChoices) + PromptRules + ["", "Git diff:", ""], "\n")
  }

  function PromptIntro(maxChoices: int): seq<string> {
    [ "You are an expert at writing clear, concise git commit messages.",
      "Based on the following git diff, generate " + IntToString(maxChoices) + " different commit message options.",
      "",
      "Rules:" ]
  }

  const PromptRules: seq<string> := [
    "- Use conventional commit format when appropriate (feat:, fix:, docs:, style:, refactor:, test:, chore:)",
    "- Keep messages under 50 characters for the subject line",
    "- Be specific about what changed",
    "- Use imperative mood (e.g., \"Add feature\" not \"Added feature\")",
    "- Each message must be on a separate line",
    "- Do not include any markdown, backticks, code fences, bullet points, numbering, or quotation marks",
    "- Output must be plain text only: one commit message per line, nothing else"
  ]

  /** The prompt text after the diff. */
  function PromptTail(maxChoices: int): string {
    "\n\nGenerate " + IntToString(maxChoices) + " commit message options:"
  }

  /** `_create_commit_prompt`. */
  function CreatePrompt(diff: string, maxChoices: int): string {
    PromptHead(maxChoices) + EmbeddedDiff(diff) + PromptTail(maxChoices)
  }

  /**
   * A prompt is the empty-diff prompt with the diff inserted at the diff slot:
   * unchanged when it has at most 2000 characters, otherwise its first 2000
   * characters followed by the truncation marker.
   */
  lemma PromptEmbedsDiff(diff: string, maxChoices: int)
    ensures var empty := CreatePrompt("", maxChoices);
            var slot := |PromptHead(maxChoices)|;
            slot <= |empty| &&
            CreatePrompt(diff, maxChoices)
              == empty[..slot] + (if |diff| > 2000 then diff[..2000] + "\n... (truncated)" else diff) + empty[slot..]
  {
    InsertAtSlot(PromptHead(maxChoices), EmbeddedDiff(diff), PromptTail(maxChoices));
  }

  lemma InsertAtSlot<T>(a: seq<T>, m: seq<T>, b: seq<T>)
    ensures a + [] + b == a + b
    ensures |a| <= |a + b| && a + m + b == (a + b)[..|a|] + m + (a + b)[|a|..]
  {
    assert (a + b)[..|a|] == a;
    assert (a + b)[|a|..] == b;
  }

  /** However long the diff, the prompt outgrows the empty-diff prompt by at most 2016 characters. */
  lemma PromptSizeBounded(diff: string, maxChoices: int)
    ensures |CreatePrompt(diff, maxChoices)| <= |CreatePrompt("", maxChoices)| + 2000 + |"\n... (truncated)"|
  {
  }

  /** Characters of the diff after the first 2000 never reach the prompt. */
  lemma PromptIgnoresDiffTail(d1: string, d2: string, maxChoices: int)
    requires |d1| > 2000 && |d2| > 2000 && d1[..2000] == d2[..2000]
    ensures CreatePrompt(d1, maxChoices) == CreatePrompt(d2, maxChoices)
  {
  }

  // ---------------------------------------------------------------- reply parsing

  /** Leading phrases that mark a reply line as commentary or as a short list opener. */
  const MetaPrefixes: seq<string> := ["Here are", "Based on", "Options:", "1.", "2.", "3.", "4.", "5."]
  const Fence := "```"
  /** The characters `line.strip('"\'`-*•')` removes from both ends. */
  const Decorations: set<char> := {'"', '\'', '`', '-', '*', '•'}
  const Bullets: seq<string> := ["- ", "* ", "• "]

  /** A trimmed line the parser drops before any rewriting. */
  predicate Skipped(t: string) {
    t == "" || StartsWithAny(t, MetaPrefixes) || StartsWith(t, Fence) || EndsWith(t, Fence)
  }

  /** A digit-led line loses everything up to its first `.`, or else up to its first `)`, and is stripped again. */
  function StripNumbering(t: string): (r: string)
    ensures IsInfix(r, t)
    ensures t != "" && IsDigit(t[0]) && ('.' in t || ')' in t) ==>
              exists k :: FirstMark(t, k) && r == Trim(t[k + 1..])
    ensures !(t != "" && IsDigit(t[0]) && ('.' in t || ')' in t)) ==> r == t
  {
    if t != "" && IsDigit(t[0]) && ('.' in t || ')' in t) then
      var c := if '.' in t then '.' else ')';
      var k := IndexOf(t, c);
      assert FirstMark(t, k);
      SliceIsInfix(t, k + 1, |t|);
      InfixTransitive(Trim(t[k + 1..]), t[k + 1..], t);
      Trim(t[k + 1..])
    else
      SliceIsInfix(t, 0, |t|);
      assert t[0..|t|] == t;
      t
  }

  /** `k` is the cut point of the numbering strip: the first `.`, or the first `)` when there is no `.`. */
  predicate FirstMark(t: string, k: nat) {
    k < |t| &&
    ((t[k] == '.' && '.' !in t[..k]) || ('.' !in t && t[k] == ')' && ')' !in t[..k]))
  }

  /** `line[2:-2].strip()` when the line is wrapped in `**`. */
  function StripBold(v: string): string {
    if StartsWith(v, "**") && EndsWith(v, "**") then Trim(if |v| >= 4 then v[2..|v| - 2] else "") else v
  }

  /** `line[1:-1].strip()` when the line is wrapped in backticks. */
  function StripInlineCode(v: string): string {
    if StartsWith(v, "`") && EndsWith(v, "`") then Trim(if |v| >= 2 then v[1..|v| - 1] else "") else v
  }

  /** Removes the first of `ps` the line starts with, then strips; at most one is removed. */
  function StripFirstPrefix(v: string, ps: seq<string>): string {
    if ps == [] then v
    else if StartsWith(v, ps[0]) then Trim(v[|ps[0]|..])
    else StripFirstPrefix(v, ps[1..])
  }

  /**
   * The decoration clean-up of a line: the character strip, then the bold,
   * inline-code and bullet steps, which never change what the strip left
   * (see `CleanupInert`).
   */
  function Cleanup(u: string): (w: string)
    ensures w == StripChars(u, Decorations)
  {
    var v := StripChars(u, Decorations);
    CleanupInert(v);
    StripFirstPrefix(StripInlineCode(StripBold(v)), Bullets)
  }

  /** The candidate a reply line contributes, if any: one pass of the loop body of `_parse_commit_messages`. */
  function LineCandidate(raw: string): (r: Option<string>)
    ensures Skipped(Trim(raw)) ==> r == None
    ensures r.Some? ==> |r.value| > 5
    ensures r.Some? ==> Undecorated(r.value)
    ensures r.Some? ==> IsInfix(r.value, raw)
  {
    var t := Trim(raw);
    if Skipped(t) then None
    else
      var u := StripNumbering(t);
      var w := Cleanup(u);
      CandidateIsInfix(raw, t, u, w);
      if |w| > 5 then Some(w) else None
  }

  /** Neither the first nor the last character is a quote, backtick, dash, star or bullet. */
  predicate Undecorated(m: string) {
    m == [] || (m[0] !in Decorations && m[|m| - 1] !in Decorations)
  }

  lemma CandidateIsInfix(raw: string, t: string, u: string, w: string)
    requires IsInfix(t, raw) && IsInfix(u, t) && IsInfix(w, u)
    ensures IsInfix(w, raw)
  {
    InfixTransitive(w, u, t);
    InfixTransitive(w, t, raw);
  }

  /**
   * The bold, inline-code and bullet steps never change a line: the character
   * strip before them has already removed every leading and trailing `*`,
   * backtick, `-` and `•`.
   */
  lemma CleanupInert(v: string)
    requires Undecorated(v)
    ensures StripFirstPrefix(StripInlineCode(StripBold(v)), Bullets) == v
  {
    BoldInert(v);
    CodeInert(v);
    BulletsInert(v);
  }

  lemma BoldInert(v: string)
    requires Undecorated(v)
    ensures StripBold(v) == v
  {
    if |v| >= 2 {
      assert v[..2][0] == v[0];
    }
  }

  lemma CodeInert(v: string)
    requires Undecorated(v)
    ensures StripInlineCode(v) == v
  {
    if |v| >= 1 {
      assert v[..1][0] == v[0];
    }
  }

  lemma BulletsInert(v: string)
    requires Undecorated(v)
    ensures StripFirstPrefix(v, Bullets) == v
  {
    if |v| >= 2 {
      assert v[..2][0] == v[0];
    }
    assert StripFirstPrefix(v, Bullets[3..]) == v;
    assert StripFirstPrefix(v, Bullets[2..]) == v;
    assert StripFirstPrefix(v, Bullets[1..]) == v;
  }

  /** A cleaned line is kept when it has more than five characters. */
  function Accept(v: string): Option<string> {
    if |v| > 5 then Some(v) else None
  }

  /**
   * What a kept line contributes: its numbering stripped, then its
   * decorations, and the rest kept when longer than five characters. The
   * bold, inline-code and bullet steps play no part.
   */
  lemma NumberingRule(raw: string)
    requires !Skipped(Trim(raw))
    ensures LineCandidate(raw) == Accept(StripChars(StripNumbering(Trim(raw)), Decorations))
  {
  }

  /**
   * A `- ` bullet keeps its blank: the character strip removes the dash but
   * not the space after it, and the bullet step that would remove both never
   * sees the dash.
   */
  lemma DashBulletKeepsBlank(x: string)
    requires |x| >= 5 && x[|x| - 1] !in Whitespace && x[|x| - 1] !in Decorations
    ensures LineCandidate("- " + x) == Some(" " + x)
  {
    var t := "- " + x;
    assert t[0] == '-' && t[|t| - 1] == x[|x| - 1];
    DashStrip(x);
    DashLineCandidate(t, " " + x);
  }

  lemma DashLineNotSkipped(t: string)
    requires |t| >= 1 && t[0] == '-' && t[|t| - 1] != '`'
    ensures !Skipped(t)
  {
    NoMetaPrefix(t);
    NoFence(t);
  }

  lemma DashStrip(x: string)
    requires |x| >= 1 && x[|x| - 1] !in Decorations
    ensures StripChars("- " + x, Decorations) == " " + x
  {
    var y := " " + x;
    assert "- " + x == ['-'] + y;
    assert y[0] == ' ' && y[|y| - 1] == x[|x| - 1];
    StripOneMark('-', y, Decorations);
  }

  /** One mark in front of a clean text is all the character strip removes. */
  lemma StripOneMark(c: char, y: string, cs: set<char>)
    requires |y| >= 1 && y[0] !in cs && y[|y| - 1] !in cs && c in cs
    ensures StripChars([c] + y, cs) == y
  {
    var s := [c] + y;
    assert s[1..] == y;
    assert StripLeft(s, cs) == StripLeft(y, cs) == y;
    assert StripRight(y, cs) == y;
  }

  lemma DashLineCandidate(t: string, w: string)
    requires |t| >= 1 && t[0] == '-' && t[|t| - 1] !in Whitespace && t[|t| - 1] != '`'
    requires StripChars(t, Decorations) == w && |w| > 5
    ensures LineCandidate(t) == Some(w)
  {
    TrimClean(t);
    DashLineNotSkipped(t);
    assert StripNumbering(t) == t;
    NumberingRule(t);
  }

  /** Upper bound on the number of messages: the loop stops once `max_choices` are collected, and never before the first. */
  function Cap(maxChoices: int): nat {
    if maxChoices >= 1 then maxChoices else 1
  }

  /** The first `n` elements of `s`, or all of them when there are fewer. */
  function Take<T>(s: seq<T>, n: nat): (r: seq<T>)
    ensures |r| <= n && |r| <= |s| && r == s[..|r|]
    ensures |s| <= n ==> r == s
    ensures |s| > n ==> |r| == n
  {
    if |s| <= n then s else s[..n]
  }

  /** Every candidate the reply lines hold. */
  function AllCandidates(lines: seq<string>): seq<string> {
    Collect(LineCandidate, lines)
  }

  /**
   * The loop of `_parse_commit_messages` from line `i` on, with `acc` collected
   * so far and `f` as the per-line step: append each candidate, stop as soon
   * as `max_choices` are collected.
   */
  function ParseLoop(f: string -> Option<string>, lines: seq<string>, i: nat, acc: seq<string>, maxChoices: int): (r: seq<string>)
    requires i <= |lines|
    requires acc == Collect(f, lines[..i]) && |acc| < Cap(maxChoices)
    ensures r == Take(Collect(f, lines), Cap(maxChoices))
    decreases |lines| - i
  {
    if i == |lines| then
      assert lines[..i] == lines;
      acc
    else
      assert lines[..i + 1][..i] == lines[..i];
      match f(lines[i])
      case Some(m) =>
        var acc' := acc + [m];
        if |acc'| >= maxChoices then
          CollectPrefix(f, lines, i + 1);
          acc'
        else
          ParseLoop(f, lines, i + 1, acc', maxChoices)
      case None =>
        ParseLoop(f, lines, i + 1, acc, maxChoices)
  }

  /** `_parse_commit_messages`: the first `Cap(maxChoices)` candidates of the reply's lines. */
  function ParseCommitMessages(response: string, maxChoices: int): (r: seq<string>)
    ensures r == Take(AllCandidates(Split(response, '\n')), Cap(maxChoices))
    ensures maxChoices >= 1 ==> |r| <= maxChoices
    ensures |r| <= 1 || |r| <= maxChoices
    ensures forall k :: 0 <= k < |r| ==> |r[k]| > 5 && '\n' !in r[k] && Undecorated(r[k])
  {
    var lines := Split(response, '\n');
    assert lines[..0] == [];
    var r := ParseLoop(LineCandidate, lines, 0, [], maxChoices);
    CandidatesFromLines(lines);
    r
  }

  lemma CandidatesFromLines(lines: seq<string>)
    requires forall j :: 0 <= j < |lines| ==> '\n' !in lines[j]
    ensures forall k :: 0 <= k < |AllCandidates(lines)| ==>
              var m := AllCandidates(lines)[k];
              |m| > 5 && '\n' !in m && Undecorated(m)
  {
    var all := AllCandidates(lines);
    var idx := Origins(LineCandidate, lines);
    forall k | 0 <= k < |all|
      ensures |all[k]| > 5 && '\n' !in all[k] && Undecorated(all[k])
    {
      var line := lines[idx[k]];
      assert LineCandidate(line) == Some(all[k]);
      InfixAvoids(all[k], line, '\n');
    }
  }

  /** Each message is the candidate of its own reply line, and the messages follow the line order. */
  lemma MessagesFollowReplyLines(response: string, maxChoices: int)
    ensures exists idx: seq<nat> ::
              Follows(LineCandidate, Split(response, '\n'), ParseCommitMessages(response, maxChoices), idx)
  {
    var lines := Split(response, '\n');
    var r := ParseCommitMessages(response, maxChoices);
    PrefixFollowsLines(LineCandidate, lines, r);
  }

  /**
   * `idx` gives each element of `s` its own line, the lines in increasing
   * order, each element being what `f` makes of its line.
   */
  ghost predicate Follows(f: string -> Option<string>, lines: seq<string>, s: seq<string>, idx: seq<nat>) {
    |idx| == |s| &&
    (forall a, b :: 0 <= a < b < |idx| ==> idx[a] < idx[b]) &&
    (forall a :: 0 <= a < |idx| ==> idx[a] < |lines| && f(lines[idx[a]]) == Some(s[a]))
  }

  lemma PrefixFollowsLines(f: string -> Option<string>, lines: seq<string>, s: seq<string>)
    requires |s| <= |Collect(f, lines)| && s == Collect(f, lines)[..|s|]
    ensures exists idx: seq<nat> :: Follows(f, lines, s, idx)
  {
    var all := Origins(f, lines);
    var idx := all[..|s|];
    assert forall a :: 0 <= a < |idx| ==> idx[a] == all[a] && s[a] == Collect(f, lines)[a];
    assert Follows(f, lines, s, idx);
  }

  /** When the reply runs out before the cap, every candidate it holds is returned. */
  lemma ShortReplyKeepsAll(response: string, maxChoices: int)
    requires |AllCandidates(Split(response, '\n'))| < Cap(maxChoices)
    ensures ParseCommitMessages(response, maxChoices) == AllCandidates(Split(response, '\n'))
  {
  }

  /** A zero or negative `max_choices` still lets the first candidate through: the cap is checked after the append. */
  lemma NonPositiveCapKeepsFirst(response: string, maxChoices: int)
    requires maxChoices <= 0 && AllCandidates(Split(response, '\n')) != []
    ensures ParseCommitMessages(response, maxChoices) == [AllCandidates(Split(response, '\n'))[0]]
  {
  }

  /** A line opening with a list marker `1.` to `5.` is dropped whole, however it goes on. */
  lemma ListMarkerDropsLine(t: string)
    requires |t| >= 2 && '1' <= t[0] <= '5' && t[1] == '.'
    ensures LineCandidate(t) == None
  {
    DigitIsNotSpace(t[0]);
    assert StripLeft(t, Whitespace) == t;
    var u := StripRight(t, Whitespace);
    assert Trim(t) == u;
    assert '.' !in Whitespace;
    assert |u| >= 2;
    assert u[..2] == t[..2];
    var k := t[0] as int - '1' as int;
    assert MetaPrefixes[3 + k] == [t[0], '.'];
    assert StartsWith(u, MetaPrefixes[3 + k]);
  }

  /** A line wrapped in `**` yields the text inside: the character strip removes the stars. */
  lemma BoldLineKeepsText(m: string)
    requires |m| > 5 && m[0] !in Decorations && m[|m| - 1] !in Decorations
    ensures LineCandidate("**" + m + "**") == Some(m)
  {
    var t := "**" + m + "**";
    assert t[0] == '*' && t[|t| - 1] == '*';
    NoMetaPrefix(t);
    NoFence(t);
    PlainLine(t);
    assert t == ['*', '*'] + m + ['*', '*'];
    StripWrapped(m, '*', Decorations);
  }

  /** Two marks on each side of a clean text are all the character strip removes. */
  lemma StripWrapped(m: string, c: char, cs: set<char>)
    requires |m| >= 1 && m[0] !in cs && m[|m| - 1] !in cs && c in cs
    ensures StripChars([c, c] + m + [c, c], cs) == m
  {
    var s := [c, c] + m + [c, c];
    assert s[1..][1..] == m + [c, c];
    assert StripLeft(m + [c, c], cs) == m + [c, c];
    assert StripLeft(s, cs) == m + [c, c];
    var u := m + [c, c];
    assert u[..|u| - 1][..|u| - 2] == m;
    assert StripRight(m, cs) == m;
    assert StripRight(u, cs) == m;
  }

  /** A clean line with no meta phrase, fence or numbering goes straight to the character strip. */
  lemma PlainLine(t: string)
    requires |t| >= 1 && t[0] !in Whitespace && t[|t| - 1] !in Whitespace && !IsDigit(t[0])
    requires !StartsWithAny(t, MetaPrefixes) && !StartsWith(t, Fence) && !EndsWith(t, Fence)
    ensures LineCandidate(t) == Accept(StripChars(t, Decorations))
  {
    TrimClean(t);
    NumberingRule(t);
  }

  /** No meta phrase starts with a character other than H, B, O or a digit from 1 to 5. */
  lemma NoMetaPrefix(t: string)
    requires |t| >= 1 && !IsDigit(t[0]) && t[0] !in {'H', 'B', 'O'}
    ensures !StartsWithAny(t, MetaPrefixes)
  {
    forall k | 0 <= k < |MetaPrefixes|
      ensures !StartsWith(t, MetaPrefixes[k])
    {
      assert MetaPrefixes[k][0] != t[0];
    }
  }

  lemma NoFence(t: string)
    requires |t| >= 1 && t[0] != '`' && t[|t| - 1] != '`'
    ensures !StartsWith(t, Fence) && !EndsWith(t, Fence)
  {
  }

  // ---------------------------------------------------------------- generation

  /** What one call of `generate_commit_messages` did: the request it sent, if any, and the messages it returned. */
  datatype Generation = Generation(request: Option<Request>, messages: seq<string>)

  /** `OllamaProvider.generate_commit_messages`, with the backend as the oracle `ask`. */
  function GenerateCommitMessages(client: Ollama, diff: string, maxChoices: int, ask: Request -> Option<string>): (g: Generation)
    ensures Trim(diff) == "" ==> g == Generation(None, [])
    ensures Trim(diff) != "" ==>
              g.request == Some(Request(client.baseUrl + "/api/generate", client.model, CreatePrompt(diff, maxChoices)))
    ensures g.request.Some? && (ask(g.request.value).None? || Trim(ask(g.request.value).value) == "") ==> g.messages == []
    ensures g.request.Some? && ask(g.request.value).Some? && Trim(ask(g.request.value).value) != "" ==>
              g.messages == ParseCommitMessages(Trim(ask(g.request.value).value), maxChoices)
    ensures |g.messages| <= Cap(maxChoices)
    ensures forall k :: 0 <= k < |g.messages| ==> |g.messages[k]| > 5
  {
    if Trim(diff) == "" then Generation(None, [])
    else
      var req := Request(client.baseUrl + "/api/generate", client.model, CreatePrompt(diff, maxChoices));
      match ask(req)
      case None => Generation(Some(req), [])
      case Some(reply) =>
        var response := Trim(reply);
        if response == "" then Generation(Some(req), [])
        else
          var messages := ParseCommitMessages(response, maxChoices);
          assert |messages| <= Cap(maxChoices) && forall k :: 0 <= k < |messages| ==> |messages[k]| > 5;
          Generation(Some(req), messages)
  }
}
