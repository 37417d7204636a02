/**
 * The fragments of Python's `str` and list semantics the program relies on:
 * `strip`, `strip(chars)`, `split(sep)`, `sep.join`, `startswith`/`endswith`,
 * slices with negative bounds, `str(n)` and a decimal `int(s)`.
 */
module PyStr {
  import opened Wrappers

  /** The characters for which Python's `str.isspace()` holds; `str.strip()` removes exactly these. */
  const Whitespace: set<char> := {
    ' ', '\t', '\n', '\r', '\U{000B}', '\U{000C}',
    '\U{001C}', '\U{001D}', '\U{001E}', '\U{001F}', '\U{0085}', '\U{00A0}', '\U{1680}',
    '\U{2000}', '\U{2001}', '\U{2002}', '\U{2003}', '\U{2004}', '\U{2005}', '\U{2006}',
    '\U{2007}', '\U{2008}', '\U{2009}', '\U{200A}', '\U{2028}', '\U{2029}', '\U{202F}',
    '\U{205F}', '\U{3000}'
  }

  /** `m` occurs as a contiguous piece of `s`. */
  ghost predicate IsInfix(m: string, s: string) {
    exists i, j :: 0 <= i <= j <= |s| && s[i..j] == m
  }

  lemma SliceIsInfix(s: string, i: int, j: int)
    requires 0 <= i <= j <= |s|
    ensures IsInfix(s[i..j], s)
  {
    assert s[i..j] == s[i..j];
  }

  lemma InfixTransitive(a: string, b: string, c: string)
    requires IsInfix(a, b) && IsInfix(b, c)
    ensures IsInfix(a, c)
  {
    var i, j :| 0 <= i <= j <= |b| && b[i..j] == a;
    var k, l :| 0 <= k <= l <= |c| && c[k..l] == b;
    SliceOfSlice(c, k, l, i, j);
  }

  lemma SliceOfSlice<T>(c: seq<T>, k: int, l: int, i: int, j: int)
    requires 0 <= k <= l <= |c|
    requires 0 <= i <= j <= l - k
    ensures c[k..l][i..j] == c[k + i..k + j]
  {
    forall t | 0 <= t < j - i ensures c[k..l][i..j][t] == c[k + i..k + j][t] {
      assert c[k..l][i..j][t] == c[k..l][i + t];
    }
  }

  /** A character absent from `s` is absent from every piece of `s`. */
  lemma InfixAvoids(m: string, s: string, ch: char)
    requires IsInfix(m, s) && ch !in s
    ensures ch !in m
  {
    var i, j :| 0 <= i <= j <= |s| && s[i..j] == m;
  }

  /** `s.lstrip(cs)`: drops the leading characters that belong to `cs`. */
  function StripLeft(s: string, cs: set<char>): (r: string)
    ensures |r| <= |s| && r == s[|s| - |r|..]
    ensures r == [] || r[0] !in cs
    ensures forall k :: 0 <= k < |s| - |r| ==> s[k] in cs
    decreases |s|
  {
    if |s| > 0 && s[0] in cs then StripLeft(s[1..], cs) else s
  }

  /** `s.rstrip(cs)`: drops the trailing characters that belong to `cs`. */
  function StripRight(s: string, cs: set<char>): (r: string)
    ensures |r| <= |s| && r == s[..|r|]
    ensures r == [] || r[|r| - 1] !in cs
    ensures forall k :: |r| <= k < |s| ==> s[k] in cs
    decreases |s|
  {
    if |s| > 0 && s[|s| - 1] in cs then StripRight(s[..|s| - 1], cs) else s
  }

  /** `s.strip(cs)`: the longest piece of `s` that neither starts nor ends with a character of `cs`. */
  function StripChars(s: string, cs: set<char>): (r: string)
    ensures IsInfix(r, s)
    ensures r == [] || (r[0] !in cs && r[|r| - 1] !in cs)
    ensures r == [] <==> forall k :: 0 <= k < |s| ==> s[k] in cs
    ensures (s == [] || (s[0] !in cs && s[|s| - 1] !in cs)) ==> r == s
  {
    var l := StripLeft(s, cs);
    var r := StripRight(l, cs);
    StripCharsFacts(s, cs, l, r);
    r
  }

  lemma StripCharsFacts(s: string, cs: set<char>, l: string, r: string)
    requires |l| <= |s| && l == s[|s| - |l|..]
    requires forall k :: 0 <= k < |s| - |l| ==> s[k] in cs
    requires l == [] || l[0] !in cs
    requires |r| <= |l| && r == l[..|r|]
    requires forall k :: |r| <= k < |l| ==> l[k] in cs
    ensures IsInfix(r, s)
    ensures r == [] <==> forall k :: 0 <= k < |s| ==> s[k] in cs
  {
    var a := |s| - |l|;
    assert s[a..a + |r|] == r by {
      assert l == s[a..|s|];
      assert r == l[0..|r|];
      SliceOfSlice(s, a, |s|, 0, |r|);
    }
    SliceIsInfix(s, a, a + |r|);
    if r == [] {
      assert l == [];
    } else {
      assert s[a] == r[0];
    }
  }

  /** Python's `s.strip()`. */
  function Trim(s: string): string {
    StripChars(s, Whitespace)
  }

  predicate StartsWith(s: string, p: string) {
    |p| <= |s| && s[..|p|] == p
  }

  predicate EndsWith(s: string, p: string) {
    |p| <= |s| && s[|s| - |p|..] == p
  }

  /** `s.startswith(tuple(ps))`. */
  predicate StartsWithAny(s: string, ps: seq<string>) {
    exists k :: 0 <= k < |ps| && StartsWith(s, ps[k])
  }

  /** `s.endswith(tuple(ps))`. */
  predicate EndsWithAny(s: string, ps: seq<string>) {
    exists k :: 0 <= k < |ps| && EndsWith(s, ps[k])
  }

  /** Position of the first `c` in `s`. */
  function IndexOf(s: string, c: char): (r: nat)
    requires c in s
    ensures r < |s| && s[r] == c && c !in s[..r]
  {
    if s[0] == c then 0 else 1 + IndexOf(s[1..], c)
  }

  /** `s.split(c, 1)[1]`: the text after the first `c`. */
  function AfterFirst(s: string, c: char): (r: string)
    requires c in s
    ensures exists k :: 0 <= k < |s| && s[k] == c && c !in s[..k] && r == s[k + 1..]
  {
    var k := IndexOf(s, c);
    s[k + 1..]
  }

  /** Python's `s.split(c)` for a one-character separator. */
  function Split(s: string, c: char): (r: seq<string>)
    ensures |r| >= 1
    ensures forall k :: 0 <= k < |r| ==> c !in r[k]
  {
    if s == [] then [""]
    else
      var rest := Split(s[1..], c);
      if s[0] == c then [""] + rest else [[s[0]] + rest[0]] + rest[1..]
  }

  /** Python's `sep.join(parts)`. */
  function Join(parts: seq<string>, sep: string): string {
    if |parts| == 0 then ""
    else if |parts| == 1 then parts[0]
    else parts[0] + sep + Join(parts[1..], sep)
  }

  /** Joining the pieces of a split with its separator gives back the text. */
  lemma {:induction false} JoinSplit(s: string, c: char)
    ensures Join(Split(s, c), [c]) == s
  {
    if s != [] {
      var rest := Split(s[1..], c);
      JoinSplit(s[1..], c);
      assert s == [s[0]] + s[1..];
      if s[0] == c {
        JoinCons("", rest, [c]);
      } else {
        JoinHead([s[0]], rest, [c]);
      }
    }
  }

  /** Gluing text to the first piece glues it to the join. */
  lemma JoinHead(h: string, rest: seq<string>, sep: string)
    requires |rest| >= 1
    ensures Join([h + rest[0]] + rest[1..], sep) == h + Join(rest, sep)
  {
    JoinCons(h + rest[0], rest[1..], sep);
    JoinCons(rest[0], rest[1..], sep);
    assert rest == [rest[0]] + rest[1..];
  }

  lemma JoinCons(p: string, t: seq<string>, sep: string)
    ensures Join([p] + t, sep) == if t == [] then p else p + sep + Join(t, sep)
  {
    if t != [] {
      assert ([p] + t)[1..] == t;
    }
  }

  /** Splitting a join of separator-free pieces gives back the pieces. */
  lemma {:induction false} SplitJoin(parts: seq<string>, c: char)
    requires |parts| >= 1
    requires forall k :: 0 <= k < |parts| ==> c !in parts[k]
    ensures Split(Join(parts, [c]), c) == parts
  {
    if |parts| == 1 {
      SplitPlain(parts[0], c);
    } else {
      SplitJoin(parts[1..], c);
      SplitAtSeparator(parts[0], c, Join(parts[1..], [c]));
      assert parts == [parts[0]] + parts[1..];
    }
  }

  lemma {:induction false} SplitPlain(p: string, c: char)
    requires c !in p
    ensures Split(p, c) == [p]
  {
    if p != [] {
      SplitPlain(p[1..], c);
      assert p == [p[0]] + p[1..];
    }
  }

  lemma {:induction false} SplitAtSeparator(p: string, c: char, t: string)
    requires c !in p
    ensures Split(p + [c] + t, c) == [p] + Split(t, c)
  {
    var s := p + [c] + t;
    if p == [] {
      assert s[1..] == t;
    } else {
      assert s[1..] == p[1..] + [c] + t;
      SplitAtSeparator(p[1..], c, t);
      assert p == [p[0]] + p[1..];
    }
  }

  predicate IsDigit(c: char) {
    '0' <= c <= '9'
  }

  predicate AllDigits(s: string) {
    forall k :: 0 <= k < |s| ==> IsDigit(s[k])
  }

  function DigitChar(d: nat): (c: char)
    requires d < 10
    ensures IsDigit(c)
  {
    ('0' as int + d) as char
  }

  /** The number a run of decimal digits denotes. */
  function DigitsValue(ds: string): nat
    requires AllDigits(ds)
  {
    if ds == [] then 0
    else DigitsValue(ds[..|ds| - 1]) * 10 + (ds[|ds| - 1] as int - '0' as int)
  }

  /** Python's `str(n)` for a natural number: canonical decimal digits that denote `n`. */
  function NatToString(n: nat): (r: string)
    ensures |r| >= 1 && AllDigits(r)
    ensures DigitsValue(r) == n
    ensures r[0] == '0' ==> n == 0
  {
    if n < 10 then [DigitChar(n)]
    else
      var p := NatToString(n / 10);
      var r := p + [DigitChar(n % 10)];
      assert r[..|r| - 1] == p;
      r
  }

  /** Python's `str(i)` for an integer. */
  function IntToString(i: int): string {
    if i < 0 then "-" + NatToString(-i) else NatToString(i)
  }

  /** Decimal digits with an optional leading sign, as `int(s)` reads them once `s` has no surrounding blanks. */
  function ParseInt(s: string): Option<int> {
    if |s| > 0 && (s[0] == '+' || s[0] == '-') then
      var ds := s[1..];
      if ds != [] && AllDigits(ds) then
        var v: int := DigitsValue(ds);
        Some(if s[0] == '-' then -v else v)
      else None
    else if s != [] && AllDigits(s) then Some(DigitsValue(s))
    else None
  }

  /** Python's `int(s)` on a decimal literal: surrounding whitespace is ignored. */
  function PyInt(s: string): Option<int> {
    ParseInt(Trim(s))
  }

  /** Printing an integer and reading it back gives the integer. */
  lemma IntRoundTrip(i: int)
    ensures PyInt(IntToString(i)) == Some(i)
  {
    var s := IntToString(i);
    var n := NatToString(if i < 0 then -i else i);
    assert IsDigit(n[0]) && IsDigit(n[|n| - 1]);
    assert s[|s| - 1] == n[|n| - 1];
    DigitIsNotSpace(n[|n| - 1]);
    if i < 0 {
      assert s[0] == '-';
      assert s[1..] == n;
    } else {
      DigitIsNotSpace(s[0]);
    }
    TrimClean(s);
  }

  /** Text that neither starts nor ends with a blank is its own `strip()`. */
  lemma TrimClean(s: string)
    requires s == [] || (s[0] !in Whitespace && s[|s| - 1] !in Whitespace)
    ensures Trim(s) == s
  {
  }

  /** Stripping twice strips no more than once. */
  lemma TrimIdempotent(s: string)
    ensures Trim(Trim(s)) == Trim(s)
  {
    TrimClean(Trim(s));
  }

  lemma DigitIsNotSpace(c: char)
    requires IsDigit(c)
    ensures c !in Whitespace
  {
  }

  function LowerChar(c: char): char {
    if 'A' <= c <= 'Z' then (c as int - 'A' as int + 'a' as int) as char else c
  }

  /** Python's `s.lower()` restricted to ASCII letters. */
  function Lower(s: string): (r: string)
    ensures |r| == |s|
  {
    seq(|s|, i requires 0 <= i < |s| => LowerChar(s[i]))
  }

  /** Python's `s[:n]`, where a negative `n` counts from the end. */
  function PyPrefix<T>(s: seq<T>, n: int): seq<T> {
    if n >= 0 then (if n <= |s| then s[..n] else s)
    else (if |s| + n > 0 then s[..|s| + n] else [])
  }

  /** Python's `s[n:]` for `n >= 0`. */
  function PySuffix<T>(s: seq<T>, n: nat): seq<T> {
    if n <= |s| then s[n..] else []
  }

  /** The list comprehension `[f(x) for x in lines if f(x) is not None]`: every result of `f`, in line order. */
  function Collect<T, U>(f: T -> Option<U>, lines: seq<T>): (r: seq<U>)
    ensures |r| <= |lines|
  {
    if lines == [] then []
    else
      var prev := Collect(f, lines[..|lines| - 1]);
      match f(lines[|lines| - 1])
      case Some(m) => prev + [m]
      case None => prev
  }

  /** Collecting from a prefix of the lines gives a prefix of the collection. */
  lemma {:induction false} CollectPrefix<T, U>(f: T -> Option<U>, lines: seq<T>, i: nat)
    requires i <= |lines|
    ensures var p := Collect(f, lines[..i]);
            |p| <= |Collect(f, lines)| && Collect(f, lines)[..|p|] == p
  {
    if i < |lines| {
      var n := |lines| - 1;
      CollectPrefix(f, lines[..n], i);
      assert lines[..n][..i] == lines[..i];
    } else {
      assert lines[..i] == lines;
    }
  }

  /**
   * Which line each collected value came from: strictly increasing line
   * indices, so values keep line order and no line yields two.
   */
  ghost function Origins<T, U>(f: T -> Option<U>, lines: seq<T>): (idx: seq<nat>)
    ensures |idx| == |Collect(f, lines)|
    ensures forall a :: 0 <= a < |idx| ==> idx[a] < |lines| && f(lines[idx[a]]) == Some(Collect(f, lines)[a])
    ensures forall a, b :: 0 <= a < b < |idx| ==> idx[a] < idx[b]
  {
    if lines == [] then []
    else
      var n := |lines| - 1;
      var prev := Origins(f, lines[..n]);
      assert forall a :: 0 <= a < |prev| ==> lines[..n][prev[a]] == lines[prev[a]];
      if f(lines[n]).Some? then prev + [n] else prev
  }

  /** Every value `f` yields on some line is collected. */
  lemma {:induction false} CollectHas<T, U>(f: T -> Option<U>, lines: seq<T>, j: nat)
    requires j < |lines| && f(lines[j]).Some?
    ensures f(lines[j]).value in Collect(f, lines)
  {
    var n := |lines| - 1;
    if j < n {
      CollectHas(f, lines[..n], j);
    }
  }

  /** Every line on which `f` yields a value is the origin of one collected value: none is skipped. */
  lemma {:induction false} OriginsComplete<T, U>(f: T -> Option<U>, lines: seq<T>, j: nat)
    requires j < |lines| && f(lines[j]).Some?
    ensures j in Origins(f, lines)
  {
    var n := |lines| - 1;
    if j < n {
      OriginsComplete(f, lines[..n], j);
      assert lines[..n][j] == lines[j];
    }
  }

  /** A step that yields nothing on any line collects nothing. */
  lemma {:induction false} CollectNothing<T, U>(f: T -> Option<U>, lines: seq<T>)
    requires forall k :: 0 <= k < |lines| ==> f(lines[k]).None?
    ensures Collect(f, lines) == []
  {
    if lines != [] {
      var n := |lines| - 1;
      assert forall k :: 0 <= k < n ==> lines[..n][k] == lines[k];
      CollectNothing(f, lines[..n]);
    }
  }

  /** A step that keeps every line unchanged collects the lines themselves. */
  lemma {:induction false} CollectIdentity<T>(f: T -> Option<T>, lines: seq<T>)
    requires forall k :: 0 <= k < |lines| ==> f(lines[k]) == Some(lines[k])
    ensures Collect(f, lines) == lines
  {
    if lines != [] {
      var n := |lines| - 1;
      assert forall k :: 0 <= k < n ==> lines[..n][k] == lines[k];
      CollectIdentity(f, lines[..n]);
      assert lines == lines[..n] + [lines[n]];
    }
  }
}
