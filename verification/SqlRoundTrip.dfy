/** Every row of null, integer and text values is printed on a single line, and the
    importer's parser gets back exactly its columns and values. */
module SqlRoundTrip {
  import opened Wrappers
  import opened Text
  import opened SqlText

  // ------------------------------------------------------------ string literals

  /** The text after a literal does not continue it. */
  predicate EndsLiteral(rest: string) {
    rest == [] || rest[0] != '\''
  }

  lemma EscapeUnfold(t: string, rest: string)
    requires t != []
    ensures Escape(t) + rest == EscapeChar(t[0]) + (Escape(t[1..]) + rest)
  {
  }

  /** An escaped character never ends the literal. */
  lemma QuotedLengthOfChar(c: char, further: string)
    ensures QuotedLength(EscapeChar(c) + further) == |EscapeChar(c)| + QuotedLength(further)
  {
    var s := EscapeChar(c) + further;
    assert s[1..] == EscapeChar(c)[1..] + further;
    if |EscapeChar(c)| == 2 {
      assert s[2..] == further && s[1..][1..] == further;
    } else {
      assert s[1..] == further;
    }
  }

  lemma {:induction false} QuotedLengthOfEscaped(t: string, rest: string)
    requires EndsLiteral(rest)
    ensures QuotedLength(Escape(t) + ("'" + rest)) == |Escape(t)|
  {
    var tail := "'" + rest;
    if t == [] {
      assert Escape(t) + tail == tail;
    } else {
      EscapeUnfold(t, tail);
      QuotedLengthOfChar(t[0], Escape(t[1..]) + tail);
      QuotedLengthOfEscaped(t[1..], rest);
    }
  }

  lemma UnquoteChar(c: char, further: string)
    ensures Unquote(EscapeChar(c) + further) == Grow(c, Unquote(further))
  {
    var s := EscapeChar(c) + further;
    if |EscapeChar(c)| == 2 {
      assert s[2..] == further;
    } else {
      assert s[1..] == further;
    }
  }

  lemma {:induction false} UnquoteEscaped(t: string, rest: string)
    requires EndsLiteral(rest)
    ensures Unquote(Escape(t) + ("'" + rest)) == Some(Parsed(t, rest))
  {
    var tail := "'" + rest;
    if t == [] {
      assert Escape(t) + tail == tail && tail[1..] == rest;
    } else {
      EscapeUnfold(t, tail);
      UnquoteChar(t[0], Escape(t[1..]) + tail);
      UnquoteEscaped(t[1..], rest);
      assert [t[0]] + t[1..] == t;
    }
  }

  // -------------------------------------------------------------------- numbers

  lemma {:induction false} DigitRunExact(digits: string, rest: string)
    requires AllDigits(digits) && (rest == [] || !IsDigit(rest[0]))
    ensures DigitRun(digits + rest) == |digits|
  {
    if digits == [] {
      assert digits + rest == rest;
    } else {
      DigitRunExact(digits[1..], rest);
      assert (digits + rest)[1..] == digits[1..] + rest;
    }
  }

  lemma ParseDigits(digits: string, negative: bool, rest: string)
    requires AllDigits(digits) && digits != [] && (rest == [] || !IsDigit(rest[0]))
    ensures
      var s := (if negative then "-" else "") + digits + rest;
      var number := ParseI64(negative, digits);
      && s != []
      && ParseValue(s) == (if number.Err? then Err(number.error) else Ok(Parsed(number.value, rest)))
  {
    var s := (if negative then "-" else "") + digits + rest;
    var start := if negative then 1 else 0;
    DigitRunExact(digits, rest);
    assert s[start..] == digits + rest;
    assert (digits + rest)[..|digits|] == digits;
    assert s[start + |digits|..] == rest;
    assert s[0] == if negative then '-' else digits[0];
    assert !StartsWith(s, "NULL");
  }

  lemma IntTextParts(i: int)
    ensures IntText(i) == (if i < 0 then "-" else "") + Decimal(if i < 0 then -i else i)
  {
    assert "" + Decimal(if i < 0 then -i else i) == Decimal(if i < 0 then -i else i);
  }

  lemma ParseI64Exact(i: int)
    ensures ParseI64(i < 0, Decimal(if i < 0 then -i else i)) ==
            if -0x8000_0000_0000_0000 <= i < 0x8000_0000_0000_0000 then Ok(SqlInt(i)) else Err(BadInteger)
  {
    DecimalRoundTrip(if i < 0 then -i else i);
  }

  /** A numeral is read as its number exactly when that has 64 bits. */
  lemma ParseNumber(i: int, rest: string)
    requires rest == [] || !IsDigit(rest[0])
    ensures IntText(i) + rest != []
    ensures ParseValue(IntText(i) + rest) ==
            if -0x8000_0000_0000_0000 <= i < 0x8000_0000_0000_0000 then Ok(Parsed(SqlInt(i), rest)) else Err(BadInteger)
  {
    var digits := Decimal(if i < 0 then -i else i);
    IntTextParts(i);
    ParseI64Exact(i);
    DecimalRoundTrip(if i < 0 then -i else i);
    ParseDigits(digits, i < 0, rest);
  }

  // --------------------------------------------------------------------- values

  /** What can follow a value inside the list: the end, or a separator. */
  predicate EndsValue(rest: string) {
    rest == [] || rest[0] == ','
  }

  lemma ParseNull(rest: string)
    ensures ParseValue("NULL" + rest) == Ok(Parsed(SqlNull, rest))
  {
    assert ("NULL" + rest)[..4] == "NULL" && ("NULL" + rest)[4..] == rest;
  }

  lemma AfterOpeningQuote(body: string, rest: string)
    ensures ("'" + body + "'" + rest)[1..] == body + ("'" + rest)
    ensures ("'" + body + "'" + rest)[|body| + 2..] == rest
  {
  }

  lemma ParseText(t: string, rest: string)
    requires EndsValue(rest)
    ensures ParseValue("'" + Escape(t) + "'" + rest) == Ok(Parsed(SqlStr(t), rest))
  {
    UnquoteEscaped(t, rest);
    AfterOpeningQuote(Escape(t), rest);
  }

  lemma ParsePrinted(v: SqlValue, rest: string)
    requires Representable(v) && EndsValue(rest)
    ensures ValueToSql(v) + rest != []
    ensures ParseValue(ValueToSql(v) + rest) == Ok(Parsed(v, rest))
  {
    match v
    case SqlNull => ParseNull(rest);
    case SqlInt(i) => ParseNumber(i, rest);
    case SqlStr(t) => ParseText(t, rest);
  }

  /** A printed value starts with neither a space nor a comma. */
  lemma PrintedStart(v: SqlValue)
    ensures ValueToSql(v) != [] && ValueToSql(v)[0] != ' ' && ValueToSql(v)[0] != ','
  {
  }

  function List(values: seq<SqlValue>): string {
    Join(Literals(values), ", ")
  }

  lemma ListUnfold(values: seq<SqlValue>)
    requires values != []
    ensures List(values) == ValueToSql(values[0]) + (if |values| == 1 then "" else ", " + List(values[1..]))
  {
    assert Literals(values)[1..] == Literals(values[1..]);
    if |values| == 1 {
      assert ValueToSql(values[0]) + "" == ValueToSql(values[0]);
    }
  }

  lemma SkipToNext(values: seq<SqlValue>)
    requires values != []
    ensures SkipSeparators(", " + List(values)) == List(values) && SkipSpaces(List(values)) == List(values)
  {
    ListUnfold(values);
    PrintedStart(values[0]);
    var s, further := ", " + List(values), List(values);
    assert s[1..] == " " + further && (" " + further)[1..] == further;
    assert SkipSeparators(further) == further;
    assert SkipSeparators(" " + further) == further;
    assert SkipSeparators(s) == SkipSeparators(s[1..]);
  }

  lemma ParseListUnfold(s: string, v: SqlValue, rest: string)
    requires s != [] && SkipSpaces(s) == s && ParseValue(s) == Ok(Parsed(v, rest))
    ensures ParseList(s) == Prepend([v], ParseList(SkipSeparators(rest)))
  {
  }

  /** The text between the parentheses parses back to the values. */
  lemma {:induction false} ListRoundTrip(values: seq<SqlValue>)
    requires forall k :: 0 <= k < |values| ==> Representable(values[k])
    ensures ParseList(List(values)) == Ok(values)
  {
    if values != [] {
      var rest := if |values| == 1 then "" else ", " + List(values[1..]);
      ListUnfold(values);
      SkipToNext(values);
      ParsePrinted(values[0], rest);
      ParseListUnfold(List(values), values[0], rest);
      ListRoundTrip(values[1..]);
      if |values| > 1 {
        SkipToNext(values[1..]);
      }
      assert values == [values[0]] + values[1..];
    }
  }

  // ---------------------------------------------------- the closing parenthesis

  predicate NoParenNorQuote(s: string) {
    Without(s, ')') && Without(s, '\'')
  }

  lemma {:induction false} ParenAfter(s: string, rest: string)
    requires NoParenNorQuote(s)
    ensures ClosingParen(s + rest) == Shift(ClosingParen(rest), |s|)
  {
    if s == [] {
      assert s + rest == rest;
    } else {
      ParenAfter(s[1..], rest);
      assert (s + rest)[1..] == s[1..] + rest;
    }
  }

  lemma DecimalIsPlain(i: int)
    ensures NoParenNorQuote(IntText(i))
  {
  }

  lemma ParenAfterValue(v: SqlValue, rest: string)
    requires EndsLiteral(rest)
    ensures ClosingParen(ValueToSql(v) + rest) == Shift(ClosingParen(rest), |ValueToSql(v)|)
  {
    match v
    case SqlNull => ParenAfter("NULL", rest);
    case SqlInt(i) =>
      DecimalIsPlain(i);
      ParenAfter(IntText(i), rest);
    case SqlStr(t) => ParenAfterText(t, rest);
  }

  lemma ParenAfterText(t: string, rest: string)
    requires EndsLiteral(rest)
    ensures ClosingParen("'" + Escape(t) + "'" + rest) == Shift(ClosingParen(rest), |Escape(t)| + 2)
  {
    var s := "'" + Escape(t) + "'" + rest;
    QuotedLengthOfEscaped(t, rest);
    AfterOpeningQuote(Escape(t), rest);
  }

  /** Parentheses and quotes inside values do not end the list early. */
  lemma {:induction false} ParenAfterList(values: seq<SqlValue>, rest: string)
    requires rest != [] && rest[0] == ')'
    ensures ClosingParen(List(values) + rest) == Some(|List(values)|)
  {
    if values == [] {
      assert List(values) + rest == rest;
    } else if |values| == 1 {
      ListUnfold(values);
      assert List(values) == ValueToSql(values[0]);
      ParenAfterValue(values[0], rest);
    } else {
      ParenAfterList(values[1..], rest);
      ParenAfterFirst(values, rest);
    }
  }

  lemma Regroup(a: string, b: string, c: string, d: string)
    ensures a + (b + c) + d == a + (b + (c + d))
  {
  }

  lemma ParenAfterFirst(values: seq<SqlValue>, rest: string)
    requires |values| > 1
    ensures |List(values)| == |ValueToSql(values[0])| + 2 + |List(values[1..])|
    ensures ClosingParen(List(values) + rest) ==
            Shift(ClosingParen(List(values[1..]) + rest), |ValueToSql(values[0])| + 2)
  {
    var head, tail := ValueToSql(values[0]), List(values[1..]);
    ListUnfold(values);
    Regroup(head, ", ", tail, rest);
    ParenAcross(values[0], tail + rest);
  }

  lemma ParenAcross(v: SqlValue, further: string)
    ensures ClosingParen(ValueToSql(v) + (", " + further)) == Shift(ClosingParen(further), |ValueToSql(v)| + 2)
  {
    ParenAfter(", ", further);
    ParenAfterValue(v, ", " + further);
  }

  // ----------------------------------------------------------------- statements

  /** A column or table name as the schema has them. */
  predicate PlainName(s: string) {
    Without(s, '(') && Without(s, ')') && Without(s, ',') && OneLine(s) && Trimmed(s)
  }

  predicate PlainRow(row: NamedRow) {
    && row != []
    && forall k :: 0 <= k < |row| ==> PlainName(row[k].0) && Representable(row[k].1)
  }

  lemma TrimFirst(piece: string, name: string, parts: seq<string>, names: seq<string>)
    requires Trim(piece) == name && TrimAll(parts) == names
    ensures TrimAll([piece] + parts) == [name] + names
  {
  }

  predicate PlainNames(names: seq<string>) {
    names != [] && forall k :: 0 <= k < |names| ==> PlainName(names[k])
  }

  lemma {:induction false} JoinedWithoutParen(names: seq<string>)
    requires PlainNames(names)
    ensures Without(Join(names, ", "), ')')
  {
    if |names| > 1 {
      JoinedWithoutParen(names[1..]);
    }
  }

  lemma LeadingPiece(lead: string, name: string)
    requires PlainName(name) && (lead == "" || lead == " ")
    ensures Without(lead + name, ',') && Trim(lead + name) == name
  {
    TrimPadded(name);
    if lead == "" {
      assert lead + name == name;
    }
  }

  lemma {:induction false} JoinedColumns(names: seq<string>, lead: string)
    requires PlainNames(names) && (lead == "" || lead == " ")
    ensures TrimAll(Split(lead + Join(names, ", "), ',')) == names
  {
    var first := lead + names[0];
    LeadingPiece(lead, names[0]);
    if |names| == 1 {
      SplitWhole(first, ',');
    } else {
      var further := " " + Join(names[1..], ", ");
      JoinedColumns(names[1..], " ");
      assert lead + Join(names, ", ") == first + [','] + further;
      SplitAfter(first, ',', further);
      TrimFirst(first, names[0], Split(further, ','), names[1..]);
      assert names == [names[0]] + names[1..];
    }
  }

  lemma ColumnsBetween(head: string, names: string, after: string)
    requires Without(head, '(') && Without(names, ')')
    ensures var line := head + "(" + (names + ")" + after);
            && IndexOf(line, '(') == Some(|head|)
            && line[|head| + 1..] == names + ")" + after
            && IndexOf(line[|head| + 1..], ')') == Some(|names|)
            && line[|head| + 1..][..|names|] == names
            && line[|head| + 1..][|names| + 1..] == after
  {
    var line := head + "(" + (names + ")" + after);
    IndexOfAfter(head, '(', names + ")" + after);
    IndexOfAfter(names, ')', after);
    assert line[|head| + 1..] == names + ")" + after;
  }

  lemma StatementShape(table: string, names: string, list: string)
    ensures "INSERT INTO " + table + "(" + names + ") VALUES(" + list + ");" ==
            ("INSERT INTO " + table) + "(" + (names + ")" + (" VALUES(" + list + ");"))
  {
  }

  lemma StatementColumns(table: string, row: NamedRow)
    requires PlainName(table) && PlainRow(row)
    ensures ParseColumns(RowToInsert(table, row)) == Ok(Parsed(Names(row), " VALUES(" + List(Values(row)) + ");"))
  {
    var names := Join(Names(row), ", ");
    var after := " VALUES(" + List(Values(row)) + ");";
    var head := "INSERT INTO " + table;
    JoinedColumns(Names(row), "");
    JoinedWithoutParen(Names(row));
    assert "" + names == names;
    assert Without("INSERT INTO ", '(');
    ColumnsBetween(head, names, after);
    StatementShape(table, names, List(Values(row)));
  }

  lemma StatementValues(values: seq<SqlValue>)
    ensures ValuesText(" VALUES(" + List(values) + ");") == Ok(List(values))
  {
    var text := List(values) + ");";
    var after := " VALUES(" + List(values) + ");";
    assert after == " VALUES(" + text;
    assert after[1..] == "VALUES(" + text;
    assert after[..7] == " VALUES";
    assert (" VALUES")[0] != ("VALUES(")[0];
    assert after[1..][..7] == "VALUES(";
    assert Find(after[1..], "VALUES(") == Some(0);
    assert Find(after, "VALUES(") == Some(1);
    assert after[8..] == text;
    ParenAfterList(values, ");");
    assert text[..|List(values)|] == List(values);
  }

  /** Print a row, parse the line: exactly the row's columns and values, whatever
      quotes, backslashes, newlines, commas or parentheses the values hold. */
  lemma InsertRoundTrip(table: string, row: NamedRow)
    requires PlainName(table) && PlainRow(row)
    ensures ParseInsert(RowToInsert(table, row)) == Ok(Insert(Names(row), Values(row)))
  {
    StatementColumns(table, row);
    StatementValues(Values(row));
    ListRoundTrip(Values(row));
  }

  // ---------------------------------------------------------------- single line

  lemma OneLineConcat(a: string, b: string)
    requires OneLine(a) && OneLine(b)
    ensures OneLine(a + b)
  {
  }

  lemma {:induction false} EscapeOneLine(t: string)
    ensures OneLine(Escape(t))
  {
    if t != [] {
      EscapeOneLine(t[1..]);
      OneLineConcat(EscapeChar(t[0]), Escape(t[1..]));
    }
  }

  lemma PrintedOneLine(v: SqlValue)
    ensures OneLine(ValueToSql(v))
  {
    if v.SqlStr? {
      EscapeOneLine(v.s);
    }
  }

  lemma {:induction false} JoinOneLine(parts: seq<string>, separator: string)
    requires OneLine(separator) && forall k :: 0 <= k < |parts| ==> OneLine(parts[k])
    ensures OneLine(Join(parts, separator))
  {
    if |parts| > 1 {
      JoinOneLine(parts[1..], separator);
    }
  }

  /** Each statement occupies one line. */
  lemma InsertIsOneLine(table: string, row: NamedRow)
    requires PlainName(table) && PlainRow(row)
    ensures OneLine(RowToInsert(table, row))
  {
    forall k | 0 <= k < |row| ensures OneLine(Literals(Values(row))[k]) {
      PrintedOneLine(row[k].1);
    }
    JoinOneLine(Names(row), ", ");
    JoinOneLine(Literals(Values(row)), ", ");
  }
}
