/** The writer-generation header of the projected epochs file. */
module ProjectionHeader {
  import opened Wrappers
  import opened Text

  const MAX_GENERATION := 0x7FFF_FFFF
  const PREFIX := "-- exo:minimum-writer-generation="
  const STEM := "-- exo:minimum-writer-generation"

  datatype Generation = Known(generation: nat) | Invalid

  predicate InRange(generation: int) {
    0 <= generation <= MAX_GENERATION
  }

  /** The numeral after the prefix: canonical decimal digits within range. */
  function ParseNumeral(value: string): Generation {
    if value == [] || (|value| > 1 && value[0] == '0') || !AllDigits(value) then Invalid
    else if DigitsValue(value) <= MAX_GENERATION then Known(DigitsValue(value))
    else Invalid
  }

  /** A file without a header belongs to generation zero; a damaged header is an
      error. */
  function Parse(content: string): Generation {
    var lines := Lines(content);
    if lines == [] then Known(0)
    else if StartsWith(lines[0], PREFIX) then ParseNumeral(lines[0][|PREFIX|..])
    else if StartsWith(lines[0], STEM) then Invalid
    else Known(0)
  }

  function Header(generation: int): Option<string> {
    if InRange(generation) then Some(PREFIX + Decimal(generation)) else None
  }

  /** The content without the header line it may already have. */
  function Body(content: string): string {
    var lines := Lines(content);
    if lines != [] && StartsWith(lines[0], PREFIX) then
      var at := IndexOf(content, '\n');
      if at.None? then "" else content[at.value + 1..]
    else content
  }

  function WithGeneration(content: string, generation: int): Option<string> {
    var header := Header(generation);
    if header.None? then None else Some(header.value + "\n" + Body(content))
  }

  lemma HeaderIsOneLine(g: int)
    requires InRange(g)
    ensures OneLine(PREFIX + Decimal(g)) && StartsWith(PREFIX + Decimal(g), PREFIX)
    ensures (PREFIX + Decimal(g))[|PREFIX|..] == Decimal(g)
  {
    assert OneLine(PREFIX);
    assert OneLine(Decimal(g));
  }

  /** Stamping any content and parsing it gives the stamped generation back. */
  lemma HeaderRoundTrip(content: string, g: int)
    requires InRange(g)
    ensures WithGeneration(content, g).Some?
    ensures Parse(WithGeneration(content, g).value) == Known(g)
    ensures Lines(WithGeneration(content, g).value) == [PREFIX + Decimal(g)] + Lines(Body(content))
  {
    HeaderIsOneLine(g);
    DecimalRoundTrip(g);
    LinesAfter(PREFIX + Decimal(g), Body(content));
  }

  /** Only the canonical numeral of a generation is accepted after the prefix. */
  lemma OnlyCanonicalHeaders(content: string, g: nat)
    requires Lines(content) != [] && StartsWith(Lines(content)[0], PREFIX)
    ensures Parse(content) == Known(g) <==> g <= MAX_GENERATION && Lines(content)[0] == PREFIX + Decimal(g)
  {
    var line := Lines(content)[0];
    var value := line[|PREFIX|..];
    assert line == PREFIX + value;
    if Parse(content) == Known(g) {
      CanonicalNumeral(value);
      assert line == PREFIX + Decimal(g);
    }
    if g <= MAX_GENERATION && line == PREFIX + Decimal(g) {
      assert value == Decimal(g);
      DecimalRoundTrip(g);
    }
  }

  /** What a file's generation is: that of a canonical header, or zero if its first line does
      not look like one at all; anything else is damaged. */
  lemma GenerationIff(content: string, g: nat)
    ensures Parse(content) == Known(g) <==>
            var lines := Lines(content);
            || (lines != [] && g <= 2147483647 && lines[0] == "-- exo:minimum-writer-generation=" + Decimal(g))
            || (g == 0 && (lines == [] || !StartsWith(lines[0], "-- exo:minimum-writer-generation")))
  {
    var lines := Lines(content);
    assert PREFIX == STEM + "=";
    if lines != [] && StartsWith(lines[0], PREFIX) {
      OnlyCanonicalHeaders(content, g);
      assert lines[0][..|STEM|] == lines[0][..|PREFIX|][..|STEM|] == STEM;
    }
  }

  lemma {:induction false} CanonicalNumeral(value: string)
    requires value != [] && AllDigits(value) && (|value| > 1 ==> value[0] != '0')
    ensures value == Decimal(DigitsValue(value))
  {
    var n, front := |value| - 1, value[..|value| - 1];
    assert value == front + [value[n]];
    if n > 0 {
      CanonicalNumeral(front);
      assert front[0] != '0';
      assert DigitsValue(front) > 0;
    } else {
      assert front == [] && DigitsValue(front) == 0;
    }
  }

  /** Stamping again replaces the header and nothing else. */
  lemma RestampReplaces(content: string, g: int, h: int)
    requires InRange(g) && InRange(h)
    ensures WithGeneration(WithGeneration(content, g).value, h) == WithGeneration(content, h)
  {
    HeaderRoundTrip(content, g);
    HeaderIsOneLine(g);
    var header := PREFIX + Decimal(g);
    var stamped := header + "\n" + Body(content);
    IndexOfAfter(header, '\n', Body(content));
    assert stamped[|header| + 1..] == Body(content);
  }
}
