/** Worked examples of token rendering and statement building. */
module TransformExamples {

  import opened Text
  import opened Rounding
  import opened DecimalLiteral
  import opened IsoDate
  import opened Transform

  lemma IntegerExample()
    ensures Render("42") == "42"
  {
    assert "42"[..1] == "4";
    assert DigitsValue("42") == 42;
    DigitsRenderAsValue("42");
    assert NatToString(42) == NatToString(4) + [DigitChar(2)];
  }

  lemma RoundDownExample()
    ensures Render("2.4") == "2"
  {
    var lit := Literal(NoSign, "2", true, "4");
    assert Spell(lit) == "2.4";
    assert Numerator(lit) == 24 && Denominator(lit) == 10;
    LiteralRenders(lit);
  }

  lemma TieToEvenDownExample()
    ensures Render("2.5") == "2"
  {
    var lit := Literal(NoSign, "2", true, "5");
    assert Spell(lit) == "2.5";
    assert Numerator(lit) == 25 && Denominator(lit) == 10;
    LiteralRenders(lit);
  }

  lemma TieToEvenUpExample()
    ensures Render("3.5") == "4"
  {
    var lit := Literal(NoSign, "3", true, "5");
    assert Spell(lit) == "3.5";
    assert Numerator(lit) == 35 && Denominator(lit) == 10;
    LiteralRenders(lit);
  }

  lemma NegativeTieExample()
    ensures Render("-2.5") == "-2"
  {
    var lit := Literal(Minus, "2", true, "5");
    assert Spell(lit) == "-2.5";
    assert Numerator(lit) == -25 && Denominator(lit) == 10;
    assert RoundHalfEven(-25, 10) == -2;
    assert IntToString(-2) == "-2";
    LiteralRenders(lit);
  }

  lemma LeadingZerosExample()
    ensures Render("007") == "7"
  {
    assert "007"[..2] == "00" && "00"[..1] == "0";
    assert DigitsValue("007") == 7;
    DigitsRenderAsValue("007");
  }

  lemma DateExample()
    ensures Render("2023-07-04") == "'2023/07/04'"
  {
    ValidExamples();
    DateRendersSlashed("2023-07-04");
    DateFields("2023-07-04");
  }

  lemma DateFields(s: string)
    requires s == "2023-07-04"
    ensures "'" + s[..4] + "/" + s[5..7] + "/" + s[8..] + "'" == "'2023/07/04'"
  {
    assert s[..4] == "2023" && s[5..7] == "07" && s[8..] == "04";
  }

  /** Text is quoted as it is; a quote inside it is not escaped. */
  lemma TextExamples()
    ensures Render("It's") == "'It's'"
  {
    WordExample("It's", "'It's'");
  }

  lemma PlainTextExample()
    ensures Render("Widget A") == "'Widget A'"
  {
    WordExample("Widget A", "'Widget A'");
  }

  /*
   * The helper lemmas of these examples take their texts as parameters
   * pinned by `requires`, so that the solver sees each literal once, as a
   * name, rather than unfolding it in every term.
   */

  lemma WordExample(s: string, quoted: string)
    requires |s| >= 1 && s[0] in "IW" && quoted == "'" + s + "'"
    ensures Render(s) == quoted
  {
    WordRendersQuoted(s);
  }

  /** A row of a number, a date and a word gives the statement of the three literals. */
  lemma InsertExample()
    ensures InsertStatement("T", ["1", "2023-07-04", "abc"]) == "insert into T values (1,'2023/07/04','abc')"
  {
    ExampleValuesList("1", "2023-07-04", "abc");
    StatementOfValuesList("T", ["1", "2023-07-04", "abc"], "1,'2023/07/04','abc'");
    ExampleStatementText("T", "1,'2023/07/04','abc'");
  }

  lemma ExampleValuesList(a: string, b: string, c: string)
    requires a == "1" && b == "2023-07-04" && c == "abc"
    ensures Join(",", RenderAll([a, b, c])) == "1,'2023/07/04','abc'"
  {
    var r := RenderAll([a, b, c]);
    assert r == ["1", "'2023/07/04'", "'abc'"] by {
      ExampleRowRendered(a, b, c);
      RenderThree(a, b, c);
    }
    ExampleRowJoined(r);
  }

  lemma StatementOfValuesList(table: string, args: seq<string>, values: string)
    requires Join(",", RenderAll(args)) == values
    ensures InsertStatement(table, args) == "insert into " + table + " values (" + values + ")"
  {
  }

  lemma ExampleStatementText(table: string, values: string)
    requires table == "T" && values == "1,'2023/07/04','abc'"
    ensures "insert into " + table + " values (" + values + ")" == "insert into T values (1,'2023/07/04','abc')"
  {
  }

  lemma ExampleRowRendered(a: string, b: string, c: string)
    requires a == "1" && b == "2023-07-04" && c == "abc"
    ensures Render(a) == "1" && Render(b) == "'2023/07/04'" && Render(c) == "'abc'"
  {
    OneExample(a);
    DateExample();
    AbcExample(c);
  }

  lemma RenderThree(a: string, b: string, c: string)
    ensures RenderAll([a, b, c]) == [Render(a), Render(b), Render(c)]
  {
    var r := RenderAll([a, b, c]);
    assert r[0] == Render(a) && r[1] == Render(b) && r[2] == Render(c);
  }

  lemma AbcExample(s: string)
    requires s == "abc"
    ensures Render(s) == "'abc'"
  {
    WordRendersQuoted(s);
  }

  lemma OneExample(s: string)
    requires s == "1"
    ensures Render(s) == "1"
  {
    IntegerTextUnchanged(1);
    assert IntToString(1) == "1";
  }

  lemma ExampleRowJoined(r: seq<string>)
    requires r == ["1", "'2023/07/04'", "'abc'"]
    ensures Join(",", r) == "1,'2023/07/04','abc'"
  {
    assert r[1..] == ["'2023/07/04'", "'abc'"];
    assert r[1..][1..] == ["'abc'"];
    assert Join(",", r[1..]) == "'2023/07/04'" + "," + "'abc'";
    assert Join(",", r) == "1" + "," + ("'2023/07/04'" + "," + "'abc'");
  }
}
