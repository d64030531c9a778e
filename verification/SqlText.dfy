/** One database row as one line of SQL: printing INSERT statements and parsing them
    back.  The parser's loops are proved against recursive readings of the remaining
    text, and the round trip is proved about those. */
module SqlText {
  import opened Wrappers
  import opened Text

  datatype SqlValue = SqlNull | SqlInt(i: int) | SqlStr(s: string)

  const MIN_I64 := -0x8000_0000_0000_0000
  const MAX_I64 := 0x7FFF_FFFF_FFFF_FFFF

  /** Integers are 64-bit signed. */
  predicate Representable(v: SqlValue) {
    v.SqlInt? ==> MIN_I64 <= v.i <= MAX_I64
  }

  datatype ParseError =
    | NoColumnList
    | ColumnListOpen
    | NoValues
    | ValuesOpen
    | UnterminatedString
    | BadInteger
    | UnexpectedCharacter
    | CountMismatch

  datatype Result<+T> = Ok(value: T) | Err(error: ParseError)

  // ----------------------------------------------------------------- printing

  function EscapeChar(c: char): string {
    if c == '\'' then "''"
    else if c == '\\' then "\\\\"
    else if c == '\n' then "\\n"
    else if c == '\r' then "\\r"
    else [c]
  }

  function Escape(s: string): string {
    if s == [] then "" else EscapeChar(s[0]) + Escape(s[1..])
  }

  method SqlEscape(s: string) returns (out: string)
    ensures out == Escape(s)
  {
    out := "";
    for k := 0 to |s|
      invariant Escape(s) == out + Escape(s[k..])
    {
      assert s[k..][0] == s[k] && s[k..][1..] == s[k + 1..];
      out := out + EscapeChar(s[k]);
    }
  }

  function IntText(i: int): string {
    if i < 0 then "-" + Decimal(-i) else Decimal(i)
  }

  function ValueToSql(v: SqlValue): string {
    match v
    case SqlNull => "NULL"
    case SqlInt(i) => IntText(i)
    case SqlStr(s) => "'" + Escape(s) + "'"
  }

  type NamedRow = seq<(string, SqlValue)>

  function Names(row: NamedRow): seq<string> {
    seq(|row|, k requires 0 <= k < |row| => row[k].0)
  }

  function Values(row: NamedRow): seq<SqlValue> {
    seq(|row|, k requires 0 <= k < |row| => row[k].1)
  }

  function Literals(values: seq<SqlValue>): seq<string> {
    seq(|values|, k requires 0 <= k < |values| => ValueToSql(values[k]))
  }

  function RowToInsert(table: string, row: NamedRow): string {
    "INSERT INTO " + table + "(" + Join(Names(row), ", ") + ") VALUES(" + Join(Literals(Values(row)), ", ") + ");"
  }

  // ------------------------------------------------- the closing parenthesis

  /** How far into the text the string literal runs that has just been opened: the
      position of its closing quote, or the end of the text. */
  function QuotedLength(s: string): (n: nat)
    ensures n <= |s|
  {
    if s == [] then 0
    else if s[0] == '\'' then
      if |s| > 1 && s[1] == '\'' then 2 + QuotedLength(s[2..]) else 0
    else 1 + QuotedLength(s[1..])
  }

  function Shift(r: Option<nat>, n: nat): Option<nat> {
    if r.None? then None else Some(r.value + n)
  }

  /** The first closing parenthesis outside string literals. */
  function ClosingParen(s: string): (r: Option<nat>)
    ensures r.Some? ==> r.value < |s|
  {
    if s == [] then None
    else if s[0] == ')' then Some(0)
    else if s[0] == '\'' then
      var n := QuotedLength(s[1..]) + 2;
      if |s| < n then None else Shift(ClosingParen(s[n..]), n)
    else Shift(ClosingParen(s[1..]), 1)
  }

  method SkipQuoted(s: string, start: nat) returns (i: nat)
    requires start <= |s|
    ensures start <= i <= |s| && i == start + QuotedLength(s[start..])
  {
    i := start;
    while i < |s|
      invariant start <= i <= |s|
      invariant start + QuotedLength(s[start..]) == i + QuotedLength(s[i..])
    {
      assert s[i..][1..] == s[i + 1..];
      if s[i] == '\'' {
        if i + 1 < |s| && s[i + 1] == '\'' {
          assert s[i..][2..] == s[i + 2..];
          i := i + 2;
        } else {
          break;
        }
      } else {
        i := i + 1;
      }
    }
  }

  /** What is left to search from position `i` decides the answer. */
  ghost predicate ParenFrom(s: string, i: nat, whole: Option<nat>)
    requires i <= |s|
  {
    whole == Shift(ClosingParen(s[i..]), i)
  }

  lemma ParenHere(s: string, i: nat, whole: Option<nat>)
    requires i < |s| && s[i] == ')' && ParenFrom(s, i, whole)
    ensures whole == Some(i)
  {
  }

  lemma ParenAfterQuoted(s: string, i: nat, q: nat, whole: Option<nat>)
    requires i < |s| && s[i] == '\'' && q == i + 1 + QuotedLength(s[i + 1..]) && ParenFrom(s, i, whole)
    ensures i < q <= |s|
    ensures if q == |s| then whole == None else ParenFrom(s, q + 1, whole)
  {
    assert s[i..][1..] == s[i + 1..];
    if q < |s| {
      assert s[i..][q + 1 - i..] == s[q + 1..];
    }
  }

  lemma ParenAfterPlain(s: string, i: nat, whole: Option<nat>)
    requires i < |s| && s[i] != '\'' && s[i] != ')' && ParenFrom(s, i, whole)
    ensures ParenFrom(s, i + 1, whole)
  {
    assert s[i..][1..] == s[i + 1..];
  }

  method FindClosingParen(s: string) returns (r: Option<nat>)
    ensures r == ClosingParen(s)
  {
    var i := 0;
    ghost var whole := ClosingParen(s);
    assert s[0..] == s;
    while i < |s|
      invariant i <= |s| && ParenFrom(s, i, whole)
      decreases |s| - i
    {
      if s[i] == ')' {
        ParenHere(s, i, whole);
        return Some(i);
      } else if s[i] == '\'' {
        var q := SkipQuoted(s, i + 1);
        ParenAfterQuoted(s, i, q, whole);
        if q == |s| {
          return None;
        }
        i := q + 1;
      } else {
        ParenAfterPlain(s, i, whole);
        i := i + 1;
      }
    }
    return None;
  }

  // ------------------------------------------------------------ parsing values

  /** A parsed item and the text after it. */
  datatype Parsed<+T> = Parsed(item: T, rest: string)

  /** Unescape a string literal whose opening quote has just been read. */
  function Unquote(s: string): (r: Option<Parsed<string>>)
    ensures r.Some? ==> |r.value.rest| < |s|
  {
    if s == [] then None
    else if s[0] == '\'' then
      if |s| > 1 && s[1] == '\'' then Grow('\'', Unquote(s[2..])) else Some(Parsed("", s[1..]))
    else if s[0] == '\\' && |s| > 1 && s[1] == 'n' then Grow('\n', Unquote(s[2..]))
    else if s[0] == '\\' && |s| > 1 && s[1] == 'r' then Grow('\r', Unquote(s[2..]))
    else if s[0] == '\\' && |s| > 1 && s[1] == '\\' then Grow('\\', Unquote(s[2..]))
    else Grow(s[0], Unquote(s[1..]))
  }

  function Grow(c: char, r: Option<Parsed<string>>): Option<Parsed<string>> {
    if r.None? then None else Some(Parsed([c] + r.value.item, r.value.rest))
  }

  /** How many digits the text starts with. */
  function DigitRun(s: string): (n: nat)
    ensures n <= |s| && AllDigits(s[..n])
    ensures n < |s| ==> !IsDigit(s[n])
  {
    if s != [] && IsDigit(s[0]) then
      var n := 1 + DigitRun(s[1..]);
      assert s[..n] == [s[0]] + s[1..][..n - 1];
      n
    else 0
  }

  /** `str::parse::<i64>` on an optional minus sign and digits. */
  function ParseI64(negative: bool, digits: string): Result<SqlValue>
    requires AllDigits(digits)
  {
    if digits == [] then Err(BadInteger)
    else
      var n: int := if negative then 0 - DigitsValue(digits) else DigitsValue(digits);
      if MIN_I64 <= n <= MAX_I64 then Ok(SqlInt(n)) else Err(BadInteger)
  }

  /** One value at the front of a non-empty text. */
  function ParseValue(s: string): (r: Result<Parsed<SqlValue>>)
    requires s != []
    ensures r.Ok? ==> |r.value.rest| < |s|
  {
    if s[0] == '\'' then
      var text := Unquote(s[1..]);
      if text.None? then Err(UnterminatedString) else Ok(Parsed(SqlStr(text.value.item), text.value.rest))
    else if StartsWith(s, "NULL") then Ok(Parsed(SqlNull, s[4..]))
    else if s[0] == '-' || IsDigit(s[0]) then
      var start := if s[0] == '-' then 1 else 0;
      var n := DigitRun(s[start..]);
      var number := ParseI64(s[0] == '-', s[start..][..n]);
      if number.Err? then Err(number.error) else Ok(Parsed(number.value, s[start + n..]))
    else Err(UnexpectedCharacter)
  }

  function SkipSpaces(s: string): (t: string)
    ensures |t| <= |s|
  {
    if s != [] && s[0] == ' ' then SkipSpaces(s[1..]) else s
  }

  function SkipSeparators(s: string): (t: string)
    ensures |t| <= |s|
  {
    if s != [] && (s[0] == ' ' || s[0] == ',') then SkipSeparators(s[1..]) else s
  }

  function Prepend(before: seq<SqlValue>, r: Result<seq<SqlValue>>): Result<seq<SqlValue>> {
    if r.Err? then r else Ok(before + r.value)
  }

  /** A list of values up to the end of the text. */
  function ParseList(s: string): Result<seq<SqlValue>>
    decreases |s|
  {
    var t := SkipSpaces(s);
    if t == [] then Ok([])
    else
      var first := ParseValue(t);
      if first.Err? then Err(first.error)
      else Prepend([first.value.item], ParseList(SkipSeparators(first.value.rest)))
  }

  // The loops of the value parser.

  /** What one turn of the unquoting loop consumes and produces; nothing at the
      closing quote. */
  function UnquoteStep(s: string, i: nat): (step: Option<(char, nat)>)
    requires i < |s|
    ensures step.Some? ==> step.value.1 > 0 && i + step.value.1 <= |s|
  {
    if s[i] == '\'' then
      if i + 1 < |s| && s[i + 1] == '\'' then Some(('\'', 2)) else None
    else if s[i] == '\\' && i + 1 < |s| && s[i + 1] == 'n' then Some(('\n', 2))
    else if s[i] == '\\' && i + 1 < |s| && s[i + 1] == 'r' then Some(('\r', 2))
    else if s[i] == '\\' && i + 1 < |s| && s[i + 1] == '\\' then Some(('\\', 2))
    else Some((s[i], 1))
  }

  lemma UnquoteByStep(s: string, i: nat)
    requires i < |s|
    ensures
      var step := UnquoteStep(s, i);
      && (step.None? ==> Unquote(s[i..]) == Some(Parsed("", s[i + 1..])))
      && (step.Some? ==> Unquote(s[i..]) == Grow(step.value.0, Unquote(s[i + step.value.1..])))
  {
    assert s[i..][1..] == s[i + 1..];
    if i + 1 < |s| {
      assert s[i..][2..] == s[i + 2..];
    }
  }

  method UnescapeAt(s: string, i: nat) returns (step: Option<(char, nat)>)
    requires i < |s|
    ensures step == UnquoteStep(s, i)
  {
    var c, width := s[i], 1;
    if s[i] == '\'' {
      if i + 1 < |s| && s[i + 1] == '\'' {
        width := 2;
      } else {
        return None;
      }
    } else if s[i] == '\\' && i + 1 < |s| {
      match s[i + 1] {
        case 'n' => c, width := '\n', 2;
        case 'r' => c, width := '\r', 2;
        case '\\' => width := 2;
        case _ =>
      }
    }
    return Some((c, width));
  }

  /** The unquoted text from position `i`, and where its closing quote is. */
  function UnquoteFrom(s: string, i: nat): (r: Option<(string, nat)>)
    requires i <= |s|
    ensures r.Some? ==> i <= r.value.1 < |s|
    decreases |s| - i
  {
    if i == |s| then None
    else
      var step := UnquoteStep(s, i);
      if step.None? then Some(("", i))
      else
        var rest := UnquoteFrom(s, i + step.value.1);
        if rest.None? then None else Some(([step.value.0] + rest.value.0, rest.value.1))
  }

  lemma {:induction false} UnquoteByIndex(s: string, i: nat)
    requires i <= |s|
    ensures Unquote(s[i..]) ==
            var r := UnquoteFrom(s, i); if r.None? then None else Some(Parsed(r.value.0, s[r.value.1 + 1..]))
    decreases |s| - i
  {
    if i < |s| {
      UnquoteByStep(s, i);
      var step := UnquoteStep(s, i);
      if step.Some? {
        UnquoteByIndex(s, i + step.value.1);
      }
    }
  }

  /** The answer begins with the text read so far. */
  function Continued(text: string, r: Option<(string, nat)>): Option<(string, nat)> {
    if r.None? then None else Some((text + r.value.0, r.value.1))
  }

  lemma ContinuedByOne(text: string, c: char, r: Option<(string, nat)>)
    ensures Continued(text, Continued([c], r)) == Continued(text + [c], r)
  {
    if r.Some? {
      assert text + ([c] + r.value.0) == text + [c] + r.value.0;
    }
  }

  lemma ContinuedByNone(r: Option<(string, nat)>)
    ensures Continued("", r) == r
  {
    if r.Some? {
      assert "" + r.value.0 == r.value.0;
    }
  }

  method UnquoteLoop(s: string, start: nat) returns (text: string, i: nat)
    requires start <= |s|
    ensures start <= i <= |s|
    ensures UnquoteFrom(s, start) == if i == |s| then None else Some((text, i))
  {
    text, i := "", start;
    ghost var whole := UnquoteFrom(s, start);
    ContinuedByNone(whole);
    while i < |s|
      invariant start <= i <= |s|
      invariant whole == Continued(text, UnquoteFrom(s, i))
    {
      var step := UnescapeAt(s, i);
      if step.None? {
        assert text + "" == text;
        return;
      }
      ContinuedByOne(text, step.value.0, UnquoteFrom(s, i + step.value.1));
      text, i := text + [step.value.0], i + step.value.1;
    }
  }

  method UnquoteAt(s: string, start: nat) returns (text: string, i: nat)
    requires start <= |s|
    ensures start <= i <= |s|
    ensures Unquote(s[start..]) == if i == |s| then None else Some(Parsed(text, s[i + 1..]))
  {
    text, i := UnquoteLoop(s, start);
    UnquoteByIndex(s, start);
  }

  method SkipDigits(s: string, first: nat) returns (i: nat)
    requires first <= |s|
    ensures i == first + DigitRun(s[first..]) && first <= i <= |s| && s[first..][..i - first] == s[first..i]
  {
    i := first;
    while i < |s| && IsDigit(s[i])
      invariant first <= i <= |s|
      invariant i - first + DigitRun(s[i..]) == DigitRun(s[first..])
    {
      assert s[i..][1..] == s[i + 1..];
      i := i + 1;
    }
  }

  /** What a value parser reports about the text at `start`. */
  ghost predicate Reports(s: string, start: nat, r: Result<SqlValue>, i: nat)
    requires start < |s|
  {
    var spec := ParseValue(s[start..]);
    if spec.Err? then r == Err(spec.error)
    else r == Ok(spec.value.item) && start < i <= |s| && s[i..] == spec.value.rest
  }

  method ParseStringAt(s: string, start: nat) returns (r: Result<SqlValue>, i: nat)
    requires start < |s| && s[start] == '\''
    ensures Reports(s, start, r, i)
  {
    assert s[start..][1..] == s[start + 1..];
    var text, q := UnquoteAt(s, start + 1);
    if q == |s| {
      return Err(UnterminatedString), q;
    }
    return Ok(SqlStr(text)), q + 1;
  }

  method ParseNumberAt(s: string, start: nat) returns (r: Result<SqlValue>, i: nat)
    requires start < |s| && (s[start] == '-' || IsDigit(s[start]))
    ensures Reports(s, start, r, i)
  {
    ghost var t := s[start..];
    assert !StartsWith(t, "NULL");
    var first := if s[start] == '-' then start + 1 else start;
    assert t[first - start..] == s[first..];
    i := SkipDigits(s, first);
    assert t[i - start..] == s[i..];
    r := ParseI64(s[start] == '-', s[first..i]);
  }

  /** The value at `start`, and where the text after it begins. */
  method ParseValueAt(s: string, start: nat) returns (r: Result<SqlValue>, i: nat)
    requires start < |s|
    ensures Reports(s, start, r, i)
  {
    ghost var t := s[start..];
    if s[start] == '\'' {
      r, i := ParseStringAt(s, start);
    } else if |s| - start >= 4 && s[start..start + 4] == "NULL" {
      assert t[..4] == s[start..start + 4] && t[4..] == s[start + 4..];
      r, i := Ok(SqlNull), start + 4;
    } else if s[start] == '-' || IsDigit(s[start]) {
      r, i := ParseNumberAt(s, start);
    } else {
      assert |t| >= 4 ==> t[..4] == s[start..start + 4];
      r, i := Err(UnexpectedCharacter), start;
    }
  }

  method SkipSpacesAt(s: string, start: nat) returns (i: nat)
    requires start <= |s|
    ensures start <= i <= |s| && SkipSpaces(s[start..]) == s[i..]
  {
    i := start;
    while i < |s| && s[i] == ' '
      invariant start <= i <= |s| && SkipSpaces(s[start..]) == SkipSpaces(s[i..])
    {
      assert s[i..][1..] == s[i + 1..];
      i := i + 1;
    }
  }

  method SkipSeparatorsAt(s: string, start: nat) returns (i: nat)
    requires start <= |s|
    ensures start <= i <= |s| && SkipSeparators(s[start..]) == s[i..]
  {
    i := start;
    while i < |s| && (s[i] == ' ' || s[i] == ',')
      invariant start <= i <= |s| && SkipSeparators(s[start..]) == SkipSeparators(s[i..])
    {
      assert s[i..][1..] == s[i + 1..];
      i := i + 1;
    }
  }

  method ParseValues(s: string) returns (r: Result<seq<SqlValue>>)
    ensures r == ParseList(s)
  {
    var values: seq<SqlValue> := [];
    var i := 0;
    ghost var whole := ParseList(s);
    assert s[0..] == s;
    PrependNone(whole);
    while i < |s|
      invariant i <= |s|
      invariant whole == Prepend(values, ParseList(s[i..]))
      decreases |s| - i
    {
      var begin := SkipSpacesAt(s, i);
      if begin >= |s| {
        assert ParseList(s[i..]) == Ok([]) && values + [] == values;
        return Ok(values);
      }
      var v, next := ParseValueAt(s, begin);
      if v.Err? {
        return Err(v.error);
      }
      var after := SkipSeparatorsAt(s, next);
      assert ParseList(s[i..]) == Prepend([v.value], ParseList(s[after..]));
      PrependOne(values, v.value, ParseList(s[after..]));
      values, i := values + [v.value], after;
    }
    assert s[i..] == [] && values + [] == values;
    return Ok(values);
  }

  lemma PrependNone(r: Result<seq<SqlValue>>)
    ensures Prepend([], r) == r
  {
    if r.Ok? {
      assert [] + r.value == r.value;
    }
  }

  lemma PrependOne(before: seq<SqlValue>, v: SqlValue, r: Result<seq<SqlValue>>)
    ensures Prepend(before, Prepend([v], r)) == Prepend(before + [v], r)
  {
    if r.Ok? {
      assert before + ([v] + r.value) == before + [v] + r.value;
    }
  }

  // -------------------------------------------------------- parsing statements

  datatype Insert = Insert(columns: seq<string>, values: seq<SqlValue>)

  function TrimAll(parts: seq<string>): seq<string> {
    seq(|parts|, k requires 0 <= k < |parts| => Trim(parts[k]))
  }

  /** The column list between the first parentheses, and the text after it. */
  function ParseColumns(line: string): Result<Parsed<seq<string>>> {
    var open := IndexOf(line, '(');
    if open.None? then Err(NoColumnList)
    else
      var after := line[open.value + 1..];
      var close := IndexOf(after, ')');
      if close.None? then Err(ColumnListOpen)
      else Ok(Parsed(TrimAll(Split(after[..close.value], ',')), after[close.value + 1..]))
  }

  /** The text between the parentheses after VALUES. */
  function ValuesText(after: string): Result<string> {
    var at := Find(after, "VALUES(");
    if at.None? then Err(NoValues)
    else
      var text := after[at.value + 7..];
      var close := ClosingParen(text);
      if close.None? then Err(ValuesOpen) else Ok(text[..close.value])
  }

  /** The statement, with as many values as columns. */
  function ParseInsert(line: string): (r: Result<Insert>)
    ensures r.Ok? ==> |r.value.columns| == |r.value.values|
  {
    var columns := ParseColumns(line);
    if columns.Err? then Err(columns.error)
    else
      var text := ValuesText(columns.value.rest);
      if text.Err? then Err(text.error)
      else
        var values := ParseList(text.value);
        if values.Err? then Err(values.error)
        else if |columns.value.item| != |values.value| then Err(CountMismatch)
        else Ok(Insert(columns.value.item, values.value))
  }

  method FindValuesText(after: string) returns (r: Result<string>)
    ensures r == ValuesText(after)
  {
    var at := Find(after, "VALUES(");
    if at.None? {
      return Err(NoValues);
    }
    var text := after[at.value + 7..];
    var close := FindClosingParen(text);
    if close.None? {
      return Err(ValuesOpen);
    }
    return Ok(text[..close.value]);
  }

  /** The importer's parser, with its loops. */
  method ParseInsertLine(line: string) returns (r: Result<Insert>)
    ensures r == ParseInsert(line)
  {
    var columns := ParseColumns(line);
    if columns.Err? {
      return Err(columns.error);
    }
    var text := FindValuesText(columns.value.rest);
    if text.Err? {
      return Err(text.error);
    }
    var values := ParseValues(text.value);
    if values.Err? {
      return Err(values.error);
    }
    if |columns.value.item| != |values.value| {
      return Err(CountMismatch);
    }
    return Ok(Insert(columns.value.item, values.value));
  }
}
