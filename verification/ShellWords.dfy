/** Quoting of file names for a POSIX shell, and the shell's own reading of the result
    (sections 2.2 and 2.3 of the POSIX Shell Command Language). */
module ShellWords {
  import opened Wrappers
  import opened Text

  // ------------------------------------------------------------- the shell's reader

  /** A word after quote removal is literal when nothing in it is open to parameter,
      pathname or tilde expansion.  Operators are kept character by character. */
  datatype Token = Word(text: string, literal: bool) | Operator(c: char)

  /** A word in the making. */
  datatype Part = Part(text: string, literal: bool)

  datatype Quoting = Plain | Single | Double | Backslash | DoubleBackslash | Dollar | DoubleDollar | Comment

  /** The shell in the middle of a command line: the tokens read, the word being read,
      and the quoting in force.  `Beyond` stands for bracketed expansions after a dollar
      sign and for backquotes, which this reader does not follow. */
  datatype Reader = Reader(tokens: seq<Token>, word: Option<Part>, mode: Quoting) | Beyond

  const START := Reader([], None, Plain)

  predicate Blank(c: char) { c == ' ' || c == '\t' }

  /** The characters of control and redirection operators. */
  predicate OperatorChar(c: char) { c in {'|', '&', ';', '<', '>', '(', ')', '\n'} }

  /** Characters that make an unquoted word a pattern, or start a tilde prefix. */
  predicate PatternChar(c: char) { c in {'*', '?', '[', '~'} }

  function Grown(word: Option<Part>, text: string, literal: bool): Option<Part> {
    if word.None? then Some(Part(text, literal)) else Some(Part(word.value.text + text, word.value.literal && literal))
  }

  /** The tokens with the open word delimited. */
  function Delimited(r: Reader): seq<Token>
    requires r.Reader?
  {
    if r.word.None? then r.tokens else r.tokens + [Word(r.word.value.text, r.word.value.literal)]
  }

  function FeedPlain(r: Reader, c: char): Reader
    requires r.Reader?
  {
    if Blank(c) then Reader(Delimited(r), None, Plain)
    else if OperatorChar(c) then Reader(Delimited(r) + [Operator(c)], None, Plain)
    else if c == '\'' then Reader(r.tokens, Grown(r.word, "", true), Single)
    else if c == '"' then Reader(r.tokens, Grown(r.word, "", true), Double)
    else if c == '\\' then r.(mode := Backslash)
    else if c == '$' then Reader(r.tokens, Grown(r.word, "$", false), Dollar)
    else if c == '#' && r.word.None? then r.(mode := Comment)
    else if c == '`' then Beyond
    else Reader(r.tokens, Grown(r.word, [c], !PatternChar(c)), Plain)
  }

  function FeedDouble(r: Reader, c: char): Reader
    requires r.Reader?
  {
    if c == '"' then r.(mode := Plain)
    else if c == '\\' then r.(mode := DoubleBackslash)
    else if c == '$' then Reader(r.tokens, Grown(r.word, "$", false), DoubleDollar)
    else if c == '`' then Beyond
    else Reader(r.tokens, Grown(r.word, [c], true), Double)
  }

  /** One more character. */
  function Feed(r: Reader, c: char): Reader {
    if r.Beyond? then r
    else
      match r.mode
      case Plain => FeedPlain(r, c)
      case Single => if c == '\'' then r.(mode := Plain) else r.(word := Grown(r.word, [c], true))
      case Backslash =>
        if c == '\n' then r.(mode := Plain) else Reader(r.tokens, Grown(r.word, [c], true), Plain)
      case Double => FeedDouble(r, c)
      case Dollar => if c in {'(', '{', '\'', '"'} then Beyond else FeedPlain(r, c)
      case DoubleDollar => if c in {'(', '{'} then Beyond else FeedDouble(r, c)
      case Comment => if c == '\n' then FeedPlain(r, c) else r
      case DoubleBackslash =>
        if c == '\n' then r.(mode := Double)
        else if c in {'$', '`', '"', '\\'} then Reader(r.tokens, Grown(r.word, [c], true), Double)
        else Reader(r.tokens, Grown(r.word, ['\\', c], true), Double)
  }

  function FeedAll(r: Reader, s: string): Reader
    decreases |s|
  {
    if s == [] then r else FeedAll(Feed(r, s[0]), s[1..])
  }

  /** The tokens of a whole line, if this reader can follow it. */
  function TokensAfter(r: Reader, s: string): Option<seq<Token>> {
    var end := FeedAll(r, s);
    if end.Beyond? || end.mode !in {Plain, Dollar, Comment} then None else Some(Delimited(end))
  }

  function Tokens(s: string): Option<seq<Token>> {
    TokensAfter(START, s)
  }

  lemma {:induction false} FeedConcat(r: Reader, a: string, b: string)
    ensures FeedAll(r, a + b) == FeedAll(FeedAll(r, a), b)
    decreases |a|
  {
    if a == [] {
      assert a + b == b;
    } else {
      assert (a + b)[1..] == a[1..] + b;
      FeedConcat(Feed(r, a[0]), a[1..], b);
    }
  }

  // ---------------------------------------------------------------------- quoting

  predicate Safe(c: char) {
    IsAlphanumeric(c) || c == '/' || c == '.' || c == '_' || c == '-'
  }

  predicate AllSafe(s: string) {
    forall k :: 0 <= k < |s| ==> Safe(s[k])
  }

  /** Each quote closes the literal, adds an escaped quote and opens it again. */
  function Requote(s: string): string {
    if s == [] then "" else (if s[0] == '\'' then "'\\''" else [s[0]]) + Requote(s[1..])
  }

  function Escape(s: string): string {
    if s == [] then "''" else if AllSafe(s) then s else "'" + Requote(s) + "'"
  }

  lemma SafeFeed(tokens: seq<Token>, word: Option<Part>, c: char)
    requires Safe(c)
    ensures Feed(Reader(tokens, word, Plain), c) == Reader(tokens, Grown(word, [c], true), Plain)
  {
  }

  lemma {:induction false} SafeRead(tokens: seq<Token>, word: string, s: string)
    requires AllSafe(s)
    ensures FeedAll(Reader(tokens, Some(Part(word, true)), Plain), s) ==
            Reader(tokens, Some(Part(word + s, true)), Plain)
    decreases |s|
  {
    if s == [] {
      assert word + s == word;
    } else {
      SafeFeed(tokens, Some(Part(word, true)), s[0]);
      SafeRead(tokens, word + [s[0]], s[1..]);
      assert word + [s[0]] + s[1..] == word + s;
    }
  }

  lemma FeedQuote(tokens: seq<Token>, word: string)
    ensures FeedAll(Reader(tokens, Some(Part(word, true)), Single), "'\\''") ==
            Reader(tokens, Some(Part(word + "'", true)), Single)
  {
    var r := Reader(tokens, Some(Part(word, true)), Single);
    assert "'\\''"[1..] == "\\''" && "\\''"[1..] == "''" && "''"[1..] == "'" && "'"[1..] == "";
    assert FeedAll(r, "'\\''") == FeedAll(r.(mode := Plain), "\\''");
    assert FeedAll(r.(mode := Plain), "\\''") == FeedAll(r.(mode := Backslash), "''");
    assert FeedAll(r.(mode := Backslash), "''") == FeedAll(Reader(tokens, Some(Part(word + "'", true)), Plain), "'");
    assert word + "'" + "" == word + "'";
  }

  lemma {:induction false} RequotedRead(tokens: seq<Token>, word: string, s: string)
    ensures FeedAll(Reader(tokens, Some(Part(word, true)), Single), Requote(s)) ==
            Reader(tokens, Some(Part(word + s, true)), Single)
    decreases |s|
  {
    var r := Reader(tokens, Some(Part(word, true)), Single);
    if s == [] {
      assert word + s == word;
    } else {
      var first := if s[0] == '\'' then "'\\''" else [s[0]];
      FeedConcat(r, first, Requote(s[1..]));
      if s[0] == '\'' {
        FeedQuote(tokens, word);
      }
      RequotedRead(tokens, word + [s[0]], s[1..]);
      assert word + [s[0]] + s[1..] == word + s;
    }
  }

  /** Reading a quoted name at the start of a word gives exactly that name, with nothing
      left to expand. */
  lemma EscapedRead(tokens: seq<Token>, s: string)
    ensures FeedAll(Reader(tokens, None, Plain), Escape(s)) == Reader(tokens, Some(Part(s, true)), Plain)
  {
    var r := Reader(tokens, None, Plain);
    if s != [] && AllSafe(s) {
      SafeFeed(tokens, None, s[0]);
      SafeRead(tokens, [s[0]], s[1..]);
      assert [s[0]] + s[1..] == s;
    } else {
      assert Escape(s) == "'" + Requote(s) + "'";
      FeedConcat(r, "'" + Requote(s), "'");
      FeedConcat(r, "'", Requote(s));
      RequotedRead(tokens, "", s);
      assert "" + s == s;
    }
  }

  // ---------------------------------------------------------------- the file list

  function EscapeAll(files: seq<string>): seq<string> {
    seq(|files|, k requires 0 <= k < |files| => Escape(files[k]))
  }

  /** The text that replaces the placeholder. */
  function FileList(files: seq<string>): string {
    Join(EscapeAll(files), " ")
  }

  /** Each file as a word of its own, with nothing left to expand. */
  function FileTokens(files: seq<string>): seq<Token> {
    seq(|files|, k requires 0 <= k < |files| => Word(files[k], true))
  }

  lemma FileTokensFirst(tokens: seq<Token>, files: seq<string>)
    requires |files| > 1
    ensures tokens + [Word(files[0], true)] + FileTokens(files[1..][..|files| - 2])
         == tokens + FileTokens(files[..|files| - 1])
  {
  }

  lemma FileListFirst(files: seq<string>)
    requires |files| > 1
    ensures FileList(files) == Escape(files[0]) + " " + FileList(files[1..])
  {
    assert EscapeAll(files)[1..] == EscapeAll(files[1..]);
  }

  lemma BlankRead(tokens: seq<Token>, word: string)
    ensures FeedAll(Reader(tokens, Some(Part(word, true)), Plain), " ") ==
            Reader(tokens + [Word(word, true)], None, Plain)
  {
    assert " "[1..] == "";
  }

  /** The reader after the list: all names read, the last one still open. */
  lemma {:induction false} ListRead(tokens: seq<Token>, files: seq<string>)
    requires files != []
    ensures FeedAll(Reader(tokens, None, Plain), FileList(files)) ==
            Reader(tokens + FileTokens(files[..|files| - 1]), Some(Part(files[|files| - 1], true)), Plain)
    decreases |files|
  {
    var r := Reader(tokens, None, Plain);
    EscapedRead(tokens, files[0]);
    if |files| > 1 {
      FileListFirst(files);
      FeedConcat(r, Escape(files[0]) + " ", FileList(files[1..]));
      FeedConcat(r, Escape(files[0]), " ");
      BlankRead(tokens, files[0]);
      ListRead(tokens + [Word(files[0], true)], files[1..]);
      FileTokensFirst(tokens, files);
    } else {
      assert tokens + FileTokens(files[..0]) == tokens;
    }
  }

  const PLACEHOLDER := "{{files}}"

  /** `str::replace`: every occurrence, from the left. */
  function Replace(s: string, pattern: string, by_: string): string
    requires pattern != []
    decreases |s|
  {
    var at := Find(s, pattern);
    if at.None? then s
    else s[..at.value] + by_ + Replace(s[at.value + |pattern|..], pattern, by_)
  }

  function SubstituteFiles(command: string, files: seq<string>): string {
    if Find(command, PLACEHOLDER).Some? then Replace(command, PLACEHOLDER, FileList(files)) else command
  }

  /** Unquoted, and at the start of a word. */
  predicate StartsWord(r: Reader) {
    r.Reader? && r.mode == Plain && r.word.None?
  }

  /** What follows ends a word.  A redirection must be set off by a blank: digits directly
      before it would be its file descriptor. */
  predicate EndsWord(rest: string) {
    rest == [] || Blank(rest[0]) || rest[0] in {'|', '&', ';', ')', '\n'}
  }

  lemma {:induction false} FeedAfterTokens(tokens: seq<Token>, r: Reader, s: string)
    requires r.Reader?
    ensures var whole, alone := FeedAll(r.(tokens := tokens + r.tokens), s), FeedAll(r, s);
            if alone.Beyond? then whole.Beyond? else whole == alone.(tokens := tokens + alone.tokens)
    decreases |s|
  {
    if s != [] {
      FeedOneAfter(tokens, r, s[0]);
      var next := Feed(r, s[0]);
      if next.Beyond? {
        BeyondStays(s[1..]);
      } else {
        FeedAfterTokens(tokens, next, s[1..]);
      }
    }
  }

  lemma DelimitedAfter(tokens: seq<Token>, r: Reader)
    requires r.Reader?
    ensures Delimited(r.(tokens := tokens + r.tokens)) == tokens + Delimited(r)
  {
  }

  lemma FeedOneAfter(tokens: seq<Token>, r: Reader, c: char)
    requires r.Reader?
    ensures var whole, alone := Feed(r.(tokens := tokens + r.tokens), c), Feed(r, c);
            if alone.Beyond? then whole.Beyond? else whole == alone.(tokens := tokens + alone.tokens)
  {
    DelimitedAfter(tokens, r);
    assert tokens + Delimited(r) + [Operator(c)] == tokens + (Delimited(r) + [Operator(c)]);
  }

  lemma {:induction false} BeyondStays(s: string)
    ensures FeedAll(Beyond, s) == Beyond
  {
    if s != [] {
      BeyondStays(s[1..]);
    }
  }

  function Prepended(tokens: seq<Token>, rest: Option<seq<Token>>): Option<seq<Token>> {
    if rest.None? then None else Some(tokens + rest.value)
  }

  lemma TokensAfterDone(tokens: seq<Token>, rest: string)
    ensures TokensAfter(Reader(tokens, None, Plain), rest) == Prepended(tokens, Tokens(rest))
  {
    FeedAfterTokens(tokens, START, rest);
    assert START.(tokens := tokens + []) == Reader(tokens, None, Plain) by {
      assert tokens + [] == tokens;
    }
    var alone := FeedAll(START, rest);
    if alone.Reader? {
      DelimitedAfter(tokens, alone);
    }
  }

  /** What ends a word delimits it. */
  lemma WordEnds(r: Reader, rest: string)
    requires r.Reader? && r.mode == Plain && EndsWord(rest)
    ensures TokensAfter(r, rest) == TokensAfter(Reader(Delimited(r), None, Plain), rest)
  {
    if rest != [] {
      assert Feed(r, rest[0]) == Feed(Reader(Delimited(r), None, Plain), rest[0]);
    }
  }

  lemma ListDelimited(tokens: seq<Token>, files: seq<string>)
    ensures var end := FeedAll(Reader(tokens, None, Plain), FileList(files));
            end.Reader? && end.mode == Plain && Delimited(end) == tokens + FileTokens(files)
  {
    if files == [] {
      assert tokens + FileTokens(files) == tokens;
    } else {
      ListRead(tokens, files);
      var n := |files| - 1;
      assert FileTokens(files) == FileTokens(files[..n]) + [Word(files[n], true)];
      assert tokens + FileTokens(files[..n]) + [Word(files[n], true)] == tokens + FileTokens(files);
    }
  }

  /** The tokens of a file list between what precedes and what follows it. */
  lemma ListInside(before: string, files: seq<string>, after: string)
    requires StartsWord(FeedAll(START, before)) && EndsWord(after)
    ensures Tokens(before + FileList(files) + after) ==
            Prepended(FeedAll(START, before).tokens + FileTokens(files), Tokens(after))
  {
    var r, list := FeedAll(START, before), FileList(files);
    FeedConcat(START, before + list, after);
    FeedConcat(START, before, list);
    ListDelimited(r.tokens, files);
    var end := FeedAll(r, list);
    WordEnds(end, after);
    TokensAfterDone(Delimited(end), after);
  }

  /** The command as the author wrote it: pieces with a placeholder between any two, none of
      which was meant otherwise. */
  predicate Pieces(pieces: seq<string>, pattern: string)
    requires pattern != []
  {
    pieces != [] &&
    if |pieces| == 1 then Find(pieces[0], pattern).None?
    else Find(Join(pieces, pattern), pattern) == Some(|pieces[0]|) && Pieces(pieces[1..], pattern)
  }

  /** Every occurrence is replaced, and nothing else changes. */
  lemma {:induction false} ReplaceEvery(pieces: seq<string>, pattern: string, by_: string)
    requires pattern != [] && Pieces(pieces, pattern)
    ensures Replace(Join(pieces, pattern), pattern, by_) == Join(pieces, by_)
  {
    if |pieces| > 1 {
      var rest := Join(pieces[1..], pattern);
      var s := pieces[0] + pattern + rest;
      ReplaceEvery(pieces[1..], pattern, by_);
      assert s[..|pieces[0]|] == pieces[0] && s[|pieces[0]| + |pattern|..] == rest;
    }
  }

  lemma ReplaceOnce(before: string, pattern: string, after: string, by_: string)
    requires pattern != [] && Find(before + pattern + after, pattern) == Some(|before|) && Find(after, pattern).None?
    ensures Replace(before + pattern + after, pattern, by_) == before + by_ + after
  {
    var s := before + pattern + after;
    assert s[..|before|] == before && s[|before| + |pattern|..] == after;
  }

  /** The shell reads an expanded placeholder that is a word of its own, in whichever
      simple command of the line, as exactly the files, in order, whatever characters
      their names contain. */
  lemma PlaceholderBecomesFiles(before: string, after: string, files: seq<string>)
    requires Find(before + PLACEHOLDER + after, PLACEHOLDER) == Some(|before|) && Find(after, PLACEHOLDER).None?
    requires StartsWord(FeedAll(START, before)) && EndsWord(after)
    ensures SubstituteFiles(before + PLACEHOLDER + after, files) == before + FileList(files) + after
    ensures Tokens(SubstituteFiles(before + PLACEHOLDER + after, files)) ==
            Prepended(FeedAll(START, before).tokens + FileTokens(files), Tokens(after))
  {
    ReplaceOnce(before, PLACEHOLDER, after, FileList(files));
    ListInside(before, files, after);
  }
}
