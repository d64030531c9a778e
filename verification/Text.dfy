/** Text shared by the printers and parsers: decimal numbers, lines, trimming and
    joining, as Rust's standard library defines them. */
module Text {
  import opened Wrappers

  // ----------------------------------------------------------------- decimals

  predicate IsDigit(c: char) {
    '0' <= c <= '9'
  }

  predicate IsLetter(c: char) {
    'a' <= c <= 'z' || 'A' <= c <= 'Z'
  }

  predicate IsAlphanumeric(c: char) {
    IsLetter(c) || IsDigit(c)
  }

  predicate AllDigits(s: string) {
    forall k :: 0 <= k < |s| ==> IsDigit(s[k])
  }

  function DigitOf(n: nat): (c: char)
    requires n < 10
    ensures IsDigit(c) && c as int == 48 + n
  {
    (48 + n) as char
  }

  /** The shortest decimal numeral: no leading zero except for zero itself. */
  function Decimal(n: nat): (s: string)
    ensures s != [] && AllDigits(s)
    ensures (s[0] == '0' <==> n == 0) && (|s| > 1 <==> n >= 10)
  {
    if n < 10 then [DigitOf(n)] else Decimal(n / 10) + [DigitOf(n % 10)]
  }

  function DigitsValue(s: string): nat
    requires AllDigits(s)
  {
    if s == [] then 0 else DigitsValue(s[..|s| - 1]) * 10 + (s[|s| - 1] as int - 48)
  }

  /** Reading a printed number gives the number back. */
  lemma {:induction false} DecimalRoundTrip(n: nat)
    ensures DigitsValue(Decimal(n)) == n
  {
    var s := Decimal(n);
    if n >= 10 {
      DecimalRoundTrip(n / 10);
      assert s[..|s| - 1] == Decimal(n / 10);
    } else {
      assert s[..0] == [];
    }
  }

  lemma DecimalInjective(m: nat, n: nat)
    requires Decimal(m) == Decimal(n)
    ensures m == n
  {
    DecimalRoundTrip(m);
    DecimalRoundTrip(n);
  }

  // ---------------------------------------------------------- joining, slicing

  function Join(parts: seq<string>, separator: string): string {
    if parts == [] then ""
    else if |parts| == 1 then parts[0]
    else parts[0] + separator + Join(parts[1..], separator)
  }

  predicate Without(s: string, c: char) {
    forall k :: 0 <= k < |s| ==> s[k] != c
  }

  predicate StartsWith(s: string, prefix: string) {
    |prefix| <= |s| && s[..|prefix|] == prefix
  }

  /** Where `c` first occurs. */
  function IndexOf(s: string, c: char): (r: Option<nat>)
    ensures r.Some? ==> r.value < |s| && s[r.value] == c && Without(s[..r.value], c)
    ensures r.None? ==> Without(s, c)
  {
    if s == [] then None
    else if s[0] == c then Some(0)
    else
      var rest := IndexOf(s[1..], c);
      if rest.None? then None
      else
        assert s[..rest.value + 1] == [s[0]] + s[1..][..rest.value];
        Some(rest.value + 1)
  }

  lemma IndexOfAfter(before: string, c: char, after: string)
    requires Without(before, c)
    ensures IndexOf(before + [c] + after, c) == Some(|before|)
  {
    assert (before + [c] + after)[|before|] == c;
  }

  /** Where `pattern` first occurs. */
  function Find(s: string, pattern: string): (r: Option<nat>)
    ensures r.Some? ==> r.value + |pattern| <= |s| && s[r.value..r.value + |pattern|] == pattern
  {
    if |s| < |pattern| then None
    else if s[..|pattern|] == pattern then Some(0)
    else if s == [] then None
    else
      var rest := Find(s[1..], pattern);
      if rest.None? then None else Some(rest.value + 1)
  }

  predicate OccursAt(s: string, pattern: string, k: nat) {
    k + |pattern| <= |s| && s[k..k + |pattern|] == pattern
  }

  lemma OccursLater(s: string, pattern: string, k: nat)
    requires s != []
    ensures OccursAt(s, pattern, k + 1) <==> OccursAt(s[1..], pattern, k)
  {
    if k + 1 + |pattern| <= |s| {
      assert s[k + 1..k + 1 + |pattern|] == s[1..][k..k + |pattern|];
    }
  }

  /** Nothing before `n`. */
  predicate NoneBefore(s: string, pattern: string, n: nat) {
    forall k :: 0 <= k < n ==> !OccursAt(s, pattern, k)
  }

  lemma NoneBeforeNext(s: string, pattern: string, n: nat)
    requires s != [] && !OccursAt(s, pattern, 0) && NoneBefore(s[1..], pattern, n)
    ensures NoneBefore(s, pattern, n + 1)
  {
    forall k | 0 <= k < n + 1 ensures !OccursAt(s, pattern, k) {
      if k > 0 {
        OccursLater(s, pattern, k - 1);
      }
    }
  }

  /** The search finds the first occurrence, and misses none. */
  lemma {:induction false} FindIsFirst(s: string, pattern: string)
    ensures Find(s, pattern).None? ==> NoneBefore(s, pattern, |s| + 1)
    ensures Find(s, pattern).Some? ==>
              OccursAt(s, pattern, Find(s, pattern).value) && NoneBefore(s, pattern, Find(s, pattern).value)
  {
    if |pattern| <= |s| && s[..|pattern|] != pattern && s != [] {
      FindIsFirst(s[1..], pattern);
      var rest := Find(s[1..], pattern);
      NoneBeforeNext(s, pattern, if rest.Some? then rest.value else |s|);
    }
  }

  /** It finds nothing exactly when there is nothing. */
  lemma FindMissesNone(s: string, pattern: string)
    ensures Find(s, pattern).None? <==> forall k: nat :: !OccursAt(s, pattern, k)
  {
    FindIsFirst(s, pattern);
    if Find(s, pattern).None? {
      forall k: nat ensures !OccursAt(s, pattern, k) {
      }
    }
  }

  /** The pieces between separators; always at least one. */
  function Split(s: string, c: char): (parts: seq<string>)
    ensures parts != []
  {
    var at := IndexOf(s, c);
    if at.None? then [s] else [s[..at.value]] + Split(s[at.value + 1..], c)
  }

  lemma SplitAfter(piece: string, c: char, rest: string)
    requires Without(piece, c)
    ensures Split(piece + [c] + rest, c) == [piece] + Split(rest, c)
  {
    IndexOfAfter(piece, c, rest);
    var s := piece + [c] + rest;
    assert s[..|piece|] == piece && s[|piece| + 1..] == rest;
  }

  lemma SplitWhole(piece: string, c: char)
    requires Without(piece, c)
    ensures Split(piece, c) == [piece]
  {
  }

  // ----------------------------------------------------------------- trimming

  /** Unicode White_Space, which `trim` strips. */
  predicate IsSpace(c: char) {
    || '\t' <= c <= '\r' || c == ' ' || c == '\U{85}' || c == '\U{A0}' || c == '\U{1680}'
    || '\U{2000}' <= c <= '\U{200A}' || c == '\U{2028}' || c == '\U{2029}' || c == '\U{202F}'
    || c == '\U{205F}' || c == '\U{3000}'
  }

  function TrimStart(s: string): string {
    if s != [] && IsSpace(s[0]) then TrimStart(s[1..]) else s
  }

  function TrimEnd(s: string): string {
    if s != [] && IsSpace(s[|s| - 1]) then TrimEnd(s[..|s| - 1]) else s
  }

  function Trim(s: string): string {
    TrimEnd(TrimStart(s))
  }

  /** Nothing to strip at either end. */
  predicate Trimmed(s: string) {
    s != [] ==> !IsSpace(s[0]) && !IsSpace(s[|s| - 1])
  }

  lemma TrimPadded(s: string)
    requires Trimmed(s)
    ensures Trim(s) == s && Trim(" " + s) == s
  {
    assert (" " + s)[1..] == s;
  }

  predicate AllSpaces(s: string) {
    forall k :: 0 <= k < |s| ==> IsSpace(s[k])
  }

  lemma {:induction false} TrimStartSplits(s: string) returns (before: string)
    ensures s == before + TrimStart(s) && AllSpaces(before)
    ensures TrimStart(s) != [] ==> !IsSpace(TrimStart(s)[0])
  {
    before := [];
    if s != [] && IsSpace(s[0]) {
      var rest := TrimStartSplits(s[1..]);
      before := [s[0]] + rest;
    }
  }

  lemma {:induction false} TrimEndSplits(s: string) returns (after: string)
    ensures s == TrimEnd(s) + after && AllSpaces(after)
    ensures TrimEnd(s) != [] ==> TrimEnd(s)[0] == s[0] && !IsSpace(TrimEnd(s)[|TrimEnd(s)| - 1])
    decreases |s|
  {
    after := [];
    if s != [] && IsSpace(s[|s| - 1]) {
      var rest := TrimEndSplits(s[..|s| - 1]);
      after := rest + [s[|s| - 1]];
    }
  }

  /** Trimming takes white space off both ends, all of it and nothing else. */
  lemma TrimSplits(s: string) returns (before: string, after: string)
    ensures s == before + Trim(s) + after && AllSpaces(before) && AllSpaces(after) && Trimmed(Trim(s))
  {
    before := TrimStartSplits(s);
    after := TrimEndSplits(TrimStart(s));
  }

  // -------------------------------------------------------------------- lines

  predicate OneLine(s: string) {
    Without(s, '\n') && Without(s, '\r')
  }

  function StripCr(s: string): string {
    if s != [] && s[|s| - 1] == '\r' then s[..|s| - 1] else s
  }

  /** `str::lines`: split at newlines, drop a final empty piece, and strip one carriage
      return from the end of each line. */
  function Lines(s: string): seq<string> {
    if s == [] then []
    else
      var at := IndexOf(s, '\n');
      if at.None? then [s] else [StripCr(s[..at.value])] + Lines(s[at.value + 1..])
  }

  function Unlines(lines: seq<string>): string {
    if lines == [] then "" else lines[0] + "\n" + Unlines(lines[1..])
  }

  lemma LinesAfter(line: string, rest: string)
    requires OneLine(line)
    ensures Lines(line + "\n" + rest) == [line] + Lines(rest)
  {
    IndexOfAfter(line, '\n', rest);
    var s := line + "\n" + rest;
    assert s[..|line|] == line && s[|line| + 1..] == rest;
  }

  lemma LinesAfterReturn(line: string, rest: string)
    requires OneLine(line)
    ensures Lines(line + "\r\n" + rest) == [line] + Lines(rest)
  {
    assert Without(line + "\r", '\n');
    IndexOfAfter(line + "\r", '\n', rest);
    var s := line + "\r\n" + rest;
    assert s == (line + "\r") + "\n" + rest;
    assert s[..|line| + 1] == line + "\r" && s[|line| + 2..] == rest;
  }

  /** A file: lines, each with its own kind of line end, and a last one that may lack it. */
  function Written(lines: seq<string>, returns_: seq<bool>, last: string): string
    requires |returns_| == |lines|
  {
    if lines == [] then last
    else lines[0] + (if returns_[0] then "\r\n" else "\n") + Written(lines[1..], returns_[1..], last)
  }

  /** Both kinds of line end are read alike, and the last line needs none. */
  lemma {:induction false} LinesOfWritten(lines: seq<string>, returns_: seq<bool>, last: string)
    requires |returns_| == |lines| && OneLine(last) && forall k :: 0 <= k < |lines| ==> OneLine(lines[k])
    ensures Lines(Written(lines, returns_, last)) == lines + (if last == "" then [] else [last])
    decreases |lines|
  {
    if lines != [] {
      LinesOfWritten(lines[1..], returns_[1..], last);
      LinesAfterEither(lines[0], returns_[0], Written(lines[1..], returns_[1..], last));
      HeadAndRest(lines, if last == "" then [] else [last]);
    }
  }

  lemma HeadAndRest(lines: seq<string>, more: seq<string>)
    requires lines != []
    ensures [lines[0]] + (lines[1..] + more) == lines + more
  {
  }

  lemma LinesAfterEither(line: string, return_: bool, rest: string)
    requires OneLine(line)
    ensures Lines(line + (if return_ then "\r\n" else "\n") + rest) == [line] + Lines(rest)
  {
    LinesAfter(line, rest);
    LinesAfterReturn(line, rest);
  }

  /** Lines written one per line are read back as they were. */
  lemma {:induction false} LinesRoundTrip(lines: seq<string>)
    requires forall k :: 0 <= k < |lines| ==> OneLine(lines[k])
    ensures Lines(Unlines(lines)) == lines
  {
    if lines != [] {
      LinesRoundTrip(lines[1..]);
      LinesAfter(lines[0], Unlines(lines[1..]));
      assert lines == [lines[0]] + lines[1..];
    }
  }
}
