/** Check ids from labels: runs of letters and digits, lowered and joined by dashes. */
module Slug {
  import opened Text

  predicate Upper(c: char) { 'A' <= c <= 'Z' }

  function Lower(c: char): char { if Upper(c) then (c as int + 32) as char else c }

  /** The words of a label: its maximal runs of letters and digits, in lower case.  The
      first one continues the word `open`. */
  function RunsFrom(open: string, s: string): seq<string>
    decreases |s|
  {
    if s == [] then (if open == "" then [] else [open])
    else if IsAlphanumeric(s[0]) then RunsFrom(open + [Lower(s[0])], s[1..])
    else (if open == "" then [] else [open]) + RunsFrom("", s[1..])
  }

  function Runs(s: string): seq<string> { RunsFrom("", s) }

  function Slugify(s: string): string { Join(Runs(s), "-") }

  // ---------------------------------------------------------------------- the loop

  /** What the loop holds after the words `closed` and the open word: a dash waits when
      a word has been closed and none is open. */
  predicate Held(out: string, dash: bool, closed: seq<string>, open: string) {
    && (dash <==> closed != [] && open == "")
    && out == if open != "" then Join(closed + [open], "-")
              else if closed == [] then "" else Join(closed, "-") + "-"
  }

  predicate NonEmpty(words: seq<string>) {
    forall k :: 0 <= k < |words| ==> words[k] != ""
  }

  lemma {:induction false} JoinAppend(words: seq<string>, last: string)
    ensures Join(words + [last], "-") == if words == [] then last else Join(words, "-") + "-" + last
  {
    if words == [] {
      assert words + [last] == [last];
    } else if |words| == 1 {
      assert words + [last] == [words[0], last];
      assert (words + [last])[1..] == [last];
    } else {
      assert (words + [last])[1..] == words[1..] + [last];
      JoinAppend(words[1..], last);
      assert words[0] + "-" + (Join(words[1..], "-") + "-" + last) ==
             words[0] + "-" + Join(words[1..], "-") + "-" + last;
    }
  }

  lemma {:induction false} JoinNonEmpty(words: seq<string>)
    requires NonEmpty(words) && words != []
    ensures Join(words, "-") != ""
  {
  }

  lemma PushChar(out: string, dash: bool, closed: seq<string>, open: string, c: char)
    requires Held(out, dash, closed, open) && NonEmpty(closed)
    ensures Held(out + [c], false, closed, open + [c])
  {
    JoinAppend(closed, open + [c]);
    JoinAppend(closed, open);
    if open == "" {
      assert open + [c] == [c];
      if closed == [] {
        assert out + [c] == [c];
      }
    } else if closed != [] {
      assert Join(closed, "-") + "-" + open + [c] == Join(closed, "-") + "-" + (open + [c]);
    }
  }

  lemma CloseWord(out: string, dash: bool, closed: seq<string>, open: string)
    requires Held(out, dash, closed, open) && NonEmpty(closed) && open != ""
    ensures out != "" && Held(out + "-", true, closed + [open], "") && NonEmpty(closed + [open])
  {
    JoinNonEmpty(closed + [open]);
  }

  lemma HeldEmpty(out: string, dash: bool, closed: seq<string>)
    requires Held(out, dash, closed, "") && NonEmpty(closed)
    ensures out == "" || dash
  {
  }

  lemma RunsAgain(closed: seq<string>, open: string, s: string, all: seq<string>)
    requires all == closed + RunsFrom(open, s) && s != [] && !IsAlphanumeric(s[0])
    ensures all == (if open == "" then closed else closed + [open]) + RunsFrom("", s[1..])
  {
    if open != "" {
      assert closed + ([open] + RunsFrom("", s[1..])) == closed + [open] + RunsFrom("", s[1..]);
    } else {
      assert closed + ([] + RunsFrom("", s[1..])) == closed + RunsFrom("", s[1..]);
    }
  }

  /** The source's character loop computes the joined words. */
  method SlugifyCheckId(text: string) returns (out: string)
    ensures out == Slugify(text)
  {
    out := "";
    var lastDash := false;
    ghost var closed: seq<string>, open: string := [], "";
    assert text[0..] == text && [] + Runs(text) == Runs(text);
    for k := 0 to |text|
      invariant Held(out, lastDash, closed, open) && NonEmpty(closed) && Without(open, '-')
      invariant Runs(text) == closed + RunsFrom(open, text[k..])
    {
      assert text[k..][0] == text[k] && text[k..][1..] == text[k + 1..];
      if IsAlphanumeric(text[k]) {
        PushChar(out, lastDash, closed, open, Lower(text[k]));
        out, lastDash := out + [Lower(text[k])], false;
        open := open + [Lower(text[k])];
      } else {
        RunsAgain(closed, open, text[k..], Runs(text));
        if open == "" {
          HeldEmpty(out, lastDash, closed);
        } else {
          CloseWord(out, lastDash, closed, open);
        }
        if out != "" && !lastDash {
          out, lastDash := out + "-", true;
          closed, open := closed + [open], "";
        }
      }
    }
    FinishSlug(out, lastDash, closed, open);
    if out != "" && out[|out| - 1] == '-' {
      out := out[..|out| - 1];
    }
  }

  /** At the end the waiting dash, if any, is dropped. */
  lemma FinishSlug(out: string, dash: bool, closed: seq<string>, open: string)
    requires Held(out, dash, closed, open) && NonEmpty(closed)
    requires Without(open, '-')
    ensures var slug := Join(closed + RunsFrom(open, ""), "-");
            if out != "" && out[|out| - 1] == '-' then out[..|out| - 1] == slug else out == slug
  {
    if open == "" {
      assert closed + RunsFrom(open, "") == closed;
      if closed != [] {
        assert (Join(closed, "-") + "-")[..|Join(closed, "-")|] == Join(closed, "-");
      }
    } else {
      JoinAppend(closed, open);
      assert closed + RunsFrom(open, "") == closed + [open];
      assert out[|out| - 1] == open[|open| - 1];
    }
  }

  // --------------------------------------------------------------------- its shape

  /** A word of a slug. */
  predicate Word(w: string) {
    w != "" && forall k :: 0 <= k < |w| ==> 'a' <= w[k] <= 'z' || IsDigit(w[k])
  }

  lemma {:induction false} RunsAreWords(open: string, s: string)
    requires open == "" || Word(open)
    ensures forall k :: 0 <= k < |RunsFrom(open, s)| ==> Word(RunsFrom(open, s)[k])
    decreases |s|
  {
    if s != [] {
      if IsAlphanumeric(s[0]) {
        assert Word(open + [Lower(s[0])]);
        RunsAreWords(open + [Lower(s[0])], s[1..]);
      } else {
        RunsAreWords("", s[1..]);
      }
    }
  }

  /** A word is one run, and a separator ends it. */
  lemma {:induction false} RunsOfWord(open: string, w: string, rest: string)
    requires forall k :: 0 <= k < |w| ==> 'a' <= w[k] <= 'z' || IsDigit(w[k])
    ensures RunsFrom(open, w + rest) == RunsFrom(open + w, rest)
    decreases |w|
  {
    if w == [] {
      assert w + rest == rest && open + w == open;
    } else {
      assert (w + rest)[1..] == w[1..] + rest;
      RunsOfWord(open + [w[0]], w[1..], rest);
      assert open + [w[0]] + w[1..] == open + w;
    }
  }

  lemma {:induction false} RunsOfJoined(words: seq<string>)
    requires forall k :: 0 <= k < |words| ==> Word(words[k])
    ensures Runs(Join(words, "-")) == words
  {
    if |words| == 1 {
      RunsOfWord("", words[0], "");
      assert words[0] + "" == words[0] && "" + words[0] == words[0];
    } else if words != [] {
      var rest := Join(words[1..], "-");
      RunsOfWord("", words[0], "-" + rest);
      assert Join(words, "-") == words[0] + ("-" + rest) && "" + words[0] == words[0];
      assert ("-" + rest)[1..] == rest;
      RunsOfJoined(words[1..]);
      assert [words[0]] + words[1..] == words;
    }
  }

  /** Words joined by single dashes, and a slug is its own slug. */
  lemma SlugOfSlug(s: string)
    ensures forall k :: 0 <= k < |Runs(s)| ==> Word(Runs(s)[k])
    ensures Slugify(Slugify(s)) == Slugify(s)
  {
    RunsAreWords("", s);
    RunsOfJoined(Runs(s));
  }

  // ----------------------------------------------------------- the slug letter by letter

  /** The same letter in lower case, or the same digit. */
  predicate Lowered(c: char, d: char) {
    || (d == c && ('a' <= c <= 'z' || '0' <= c <= '9'))
    || ('A' <= c <= 'Z' && 'a' <= d <= 'z' && d as int - 'a' as int == c as int - 'A' as int)
  }

  /** The text so far ends inside a word. */
  predicate EndsOpen(open: string, s: string) {
    if s == [] then open != "" else IsAlphanumeric(s[|s| - 1])
  }

  /** The words after one more character. */
  function MoreWords(words: seq<string>, inside: bool, c: char): seq<string>
    requires inside ==> words != []
  {
    if !IsAlphanumeric(c) then words
    else if inside then words[..|words| - 1] + [words[|words| - 1] + [Lower(c)]]
    else words + [[Lower(c)]]
  }

  lemma MoreBehind(first: seq<string>, words: seq<string>, inside: bool, c: char)
    requires inside ==> words != []
    ensures MoreWords(first + words, inside, c) == first + MoreWords(words, inside, c)
  {
    if IsAlphanumeric(c) && inside {
      assert (first + words)[..|first| + |words| - 1] == first + words[..|words| - 1];
    }
  }

  lemma RunsOfOne(open: string, c: char)
    ensures RunsFrom(open, [c]) == MoreWords(RunsFrom(open, ""), open != "", c)
  {
    assert [c][1..] == "";
    if IsAlphanumeric(c) {
      assert RunsFrom(open + [Lower(c)], "") == [open + [Lower(c)]];
      assert open == "" ==> open + [Lower(c)] == [Lower(c)];
    }
  }

  lemma {:induction false} RunsSnoc(open: string, s: string, c: char)
    ensures EndsOpen(open, s) ==> RunsFrom(open, s) != []
    ensures RunsFrom(open, s + [c]) == MoreWords(RunsFrom(open, s), EndsOpen(open, s), c)
    decreases |s|
  {
    if s == [] {
      assert s + [c] == [c];
      RunsOfOne(open, c);
    } else {
      assert (s + [c])[1..] == s[1..] + [c];
      if IsAlphanumeric(s[0]) {
        RunsSnoc(open + [Lower(s[0])], s[1..], c);
      } else {
        RunsSnoc("", s[1..], c);
        MoreBehind(if open == "" then [] else [open], RunsFrom("", s[1..]), EndsOpen("", s[1..]), c);
      }
    }
  }

  /** The slug after one more character. */
  lemma SlugSnoc(s: string, c: char)
    ensures Slugify(s + [c]) ==
            if !IsAlphanumeric(c) then Slugify(s)
            else if EndsOpen("", s) then Slugify(s) + [Lower(c)]
            else if Runs(s) == [] then [Lower(c)]
            else Slugify(s) + "-" + [Lower(c)]
  {
    var words := Runs(s);
    RunsSnoc("", s, c);
    if IsAlphanumeric(c) && EndsOpen("", s) {
      var front, last := words[..|words| - 1], words[|words| - 1];
      assert words == front + [last];
      JoinAppend(front, last);
      JoinAppend(front, last + [Lower(c)]);
    } else if IsAlphanumeric(c) {
      JoinAppend(words, [Lower(c)]);
    }
  }

  /** Letter `from[i]` of the text is letter `at[i]` of the slug.  The first one comes first
      there, neighbours stay neighbours, and whatever else is between two letters is one
      dash. */
  predicate LetterAt(text: string, slug: string, from: seq<nat>, at: seq<nat>, i: nat)
    requires i < |from| == |at|
  {
    && from[i] < |text| && at[i] < |slug| && Lowered(text[from[i]], slug[at[i]])
    && if i == 0 then at[i] == 0
       else from[i - 1] < from[i] &&
            if from[i] == from[i - 1] + 1 then at[i] == at[i - 1] + 1
            else at[i] == at[i - 1] + 2 && slug[at[i] - 1] == '-'
  }

  /** The positions of all letters and digits. */
  ghost predicate Marks(text: string, from: seq<nat>) {
    forall p :: 0 <= p < |text| ==> (IsAlphanumeric(text[p]) <==> p in from)
  }

  /** Letter by letter, and the slug has nothing behind its last one. */
  ghost predicate LetterByLetter(text: string, slug: string, from: seq<nat>, at: seq<nat>) {
    && |from| == |at| && Marks(text, from)
    && (forall i :: 0 <= i < |at| ==> LetterAt(text, slug, from, at, i))
    && (if at == [] then slug == "" else at[|at| - 1] == |slug| - 1)
  }

  /** What comes between the slug so far and the next letter. */
  function Gap(text: string, slug: string): string {
    if slug == "" || EndsOpen("", text) then "" else "-"
  }

  lemma MarksSnoc(text: string, from: seq<nat>, c: char)
    requires Marks(text, from) && |text| !in from
    ensures Marks(text + [c], if IsAlphanumeric(c) then from + [|text|] else from)
  {
    var longer, more := text + [c], if IsAlphanumeric(c) then from + [|text|] else from;
    forall p | 0 <= p < |longer| ensures IsAlphanumeric(longer[p]) <==> p in more {
      if p < |text| {
        assert longer[p] == text[p] && (p in more <==> p in from);
      }
    }
  }

  /** The last position is the greatest. */
  lemma {:induction false} LastIsGreatest(text: string, slug: string, from: seq<nat>, at: seq<nat>, i: nat, j: nat)
    requires LetterByLetter(text, slug, from, at) && i <= j < |from|
    ensures from[i] <= from[j]
    decreases j
  {
    if i < j {
      LastIsGreatest(text, slug, from, at, i, j - 1);
      assert LetterAt(text, slug, from, at, j);
    }
  }

  lemma LastMark(text: string, slug: string, from: seq<nat>, at: seq<nat>)
    requires LetterByLetter(text, slug, from, at) && from != []
    ensures from[|from| - 1] < |text| && (EndsOpen("", text) <==> from[|from| - 1] == |text| - 1)
  {
    var last := |from| - 1;
    assert LetterAt(text, slug, from, at, last);
    assert from[last] in from;
    if EndsOpen("", text) {
      var k :| 0 <= k < |from| && from[k] == |text| - 1;
      LastIsGreatest(text, slug, from, at, k, last);
    }
  }

  lemma NoLaterMark(text: string, slug: string, from: seq<nat>, at: seq<nat>)
    requires LetterByLetter(text, slug, from, at)
    ensures |text| !in from
  {
    forall i | 0 <= i < |from| ensures from[i] < |text| {
      assert LetterAt(text, slug, from, at, i);
    }
  }

  lemma LetterStays(text: string, slug: string, from: seq<nat>, at: seq<nat>, i: nat,
                    c: char, rest: string, p: nat, q: nat)
    requires i < |from| == |at| && LetterAt(text, slug, from, at, i)
    ensures LetterAt(text + [c], slug + rest, from + [p], at + [q], i)
  {
  }

  lemma NewLetter(text: string, slug: string, from: seq<nat>, at: seq<nat>, c: char)
    requires LetterByLetter(text, slug, from, at) && IsAlphanumeric(c)
    ensures var gap := Gap(text, slug);
            LetterAt(text + [c], slug + (gap + [Lower(c)]), from + [|text|], at + [|slug| + |gap|], |at|)
  {
    if at != [] {
      LastMark(text, slug, from, at);
    }
    var longer := slug + (Gap(text, slug) + [Lower(c)]);
    assert longer[|slug| + |Gap(text, slug)|] == Lower(c);
  }

  lemma LettersSnoc(text: string, slug: string, from: seq<nat>, at: seq<nat>, c: char)
    requires LetterByLetter(text, slug, from, at) && IsAlphanumeric(c)
    ensures var gap := Gap(text, slug);
            LetterByLetter(text + [c], slug + (gap + [Lower(c)]), from + [|text|], at + [|slug| + |gap|])
  {
    NoLaterMark(text, slug, from, at);
    MarksSnoc(text, from, c);
    NewLetter(text, slug, from, at, c);
    var rest, q := Gap(text, slug) + [Lower(c)], |slug| + |Gap(text, slug)|;
    forall i | 0 <= i < |at| ensures LetterAt(text + [c], slug + rest, from + [|text|], at + [q], i) {
      LetterStays(text, slug, from, at, i, c, rest, |text|, q);
    }
  }

  lemma LettersKept(text: string, slug: string, from: seq<nat>, at: seq<nat>, c: char)
    requires LetterByLetter(text, slug, from, at) && !IsAlphanumeric(c)
    ensures LetterByLetter(text + [c], slug, from, at)
  {
    NoLaterMark(text, slug, from, at);
    MarksSnoc(text, from, c);
    forall i | 0 <= i < |at| ensures LetterAt(text + [c], slug, from, at, i) {
      assert LetterAt(text, slug, from, at, i);
    }
  }

  lemma RunsEmptyIff(s: string)
    ensures Runs(s) == [] <==> Slugify(s) == ""
  {
    RunsAreWords("", s);
    if Runs(s) != [] {
      JoinNonEmpty(Runs(s));
    }
  }

  /** The slug is the letters and digits of the text, lowered one by one, with a single dash
      for every gap between them. */
  lemma {:induction false} SlugLetters(text: string) returns (from: seq<nat>, at: seq<nat>)
    ensures LetterByLetter(text, Slugify(text), from, at)
  {
    if text == [] {
      from, at := [], [];
    } else {
      var s, c := text[..|text| - 1], text[|text| - 1];
      assert text == s + [c];
      from, at := SlugLetters(s);
      SlugGap(s, c);
      if IsAlphanumeric(c) {
        var next := |Slugify(s)| + |Gap(s, Slugify(s))|;
        LettersSnoc(s, Slugify(s), from, at, c);
        from, at := from + [|s|], at + [next];
      } else {
        LettersKept(s, Slugify(s), from, at, c);
      }
    }
  }

  lemma SlugGap(s: string, c: char)
    ensures Slugify(s + [c]) == if IsAlphanumeric(c) then Slugify(s) + (Gap(s, Slugify(s)) + [Lower(c)]) else Slugify(s)
  {
    SlugSnoc(s, c);
    RunsEmptyIff(s);
    RunsSnoc("", s, c);
  }

  /** The slug is empty exactly when there is no letter and no digit. */
  lemma SlugEmptyIff(text: string)
    ensures Slugify(text) == "" <==> forall p :: 0 <= p < |text| ==> !IsAlphanumeric(text[p])
  {
    var from, at := SlugLetters(text);
    if at != [] {
      assert LetterAt(text, Slugify(text), from, at, 0) && from[0] in from;
    }
  }
}
