/**
 * Turning CSV text tokens into SQL literals and building INSERT statements
 * from them (transformNumberValue, transformDateValue, transformValueToQuery
 * and insertInto).
 */
module Transform {

  import opened Wrappers
  import opened Text
  import opened Rounding
  import opened DecimalLiteral
  import opened IsoDate
  import opened PyValues

  /**
   * `round(Decimal(value))`. The `isinstance(number, int)` test never holds
   * for a Decimal, so every number is rounded. None stands for the
   * InvalidOperation that `Decimal` raises on text that is not a number.
   */
  function TransformNumberValue(value: string): (r: Option<int>) {
    match ParseDecimal(value)
    case Some(lit) => Some(RoundHalfEven(Numerator(lit), Denominator(lit)))
    case None => None
  }

  /** `fromisoformat(date).strftime('%Y/%m/%d')`; None stands for the ValueError of a token that is not a date. */
  function TransformDateValue(date: string): (r: Option<string>) {
    match ParseIsoDate(date)
    case Some(d) => Some(FormatSlashed(d))
    case None => None
  }

  function Quote(s: string): (quoted: string) {
    "'" + s + "'"
  }

  /**
   * The first classification that succeeds wins: a number gives an int, a
   * date gives the quoted YYYY/MM/DD text, anything else is quoted as it is,
   * with no escaping of quotes inside it.
   */
  function TransformValueToQuery(value: string): (r: PyValue) {
    match TransformNumberValue(value)
    case Some(n) => PyInt(n)
    case None =>
      match TransformDateValue(value)
      case Some(d) => PyStr(Quote(d))
      case None => PyStr(Quote(value))
  }

  /** A number exactly when Decimal accepts the token, and then the half-even rounding of its value. */
  lemma NumberValueMeaning(value: string)
    ensures TransformNumberValue(value).Some? <==> ParseDecimal(value).Some?
    ensures TransformNumberValue(value).Some? ==>
      var lit := ParseDecimal(value).value;
      IsHalfEvenRounding(Numerator(lit), Denominator(lit), TransformNumberValue(value).value)
  {
  }

  /** A date exactly when fromisoformat accepts the token, and then the token with slashes for dashes. */
  lemma DateValueMeaning(date: string)
    ensures TransformDateValue(date).Some? <==> ParseIsoDate(date).Some?
    ensures TransformDateValue(date).Some? ==> TransformDateValue(date).value == date[..4] + "/" + date[5..7] + "/" + date[8..]
  {
    if ParseIsoDate(date).Some? {
      SlashedIsDashesReplaced(date);
    }
  }

  /** The three cases of transformValueToQuery, tried in order. */
  lemma ValueToQueryCases(value: string)
    ensures TransformValueToQuery(value).PyInt? <==> ParseDecimal(value).Some?
    ensures TransformValueToQuery(value).PyInt? ==>
      var lit := ParseDecimal(value).value;
      IsHalfEvenRounding(Numerator(lit), Denominator(lit), TransformValueToQuery(value).i)
    ensures ParseDecimal(value).None? && ParseIsoDate(value).Some? ==>
      TransformValueToQuery(value) == PyStr("'" + value[..4] + "/" + value[5..7] + "/" + value[8..] + "'")
    ensures ParseDecimal(value).None? && ParseIsoDate(value).None? ==> TransformValueToQuery(value) == PyStr("'" + value + "'")
  {
    if ParseDecimal(value).Some? {
      NumberValueMeaning(value);
    } else {
      DateValueMeaning(value);
    }
  }

  /** The SQL text one token contributes to the values list. */
  function Render(value: string): (text: string) {
    PyStrOf(TransformValueToQuery(value))
  }

  /** The rendered tokens of a row, in row order. */
  function RenderAll(args: seq<string>): (texts: seq<string>) {
    seq(|args|, i requires 0 <= i < |args| => Render(args[i]))
  }

  /** The statement insertInto builds: the rendered values, comma-separated, in order. */
  function InsertStatement(table: string, args: seq<string>): (statement: string) {
    "insert into " + table + " values (" + Join(",", RenderAll(args)) + ")"
  }

  /** What insertInto has appended after `done` values: each followed by a comma, except the last value of all. */
  ghost function Written(rendered: seq<string>, done: nat): (query: string)
    requires done <= |rendered|
  {
    if done == 0 then ""
    else if done < |rendered| then Join(",", rendered[..done]) + ","
    else Join(",", rendered)
  }

  lemma WrittenStep(rendered: seq<string>, i: nat)
    requires i < |rendered|
    ensures Written(rendered, i + 1) == Written(rendered, i) + rendered[i] + (if i < |rendered| - 1 then "," else "")
  {
    assert rendered[..i + 1] == rendered[..i] + [rendered[i]];
    if i > 0 {
      JoinSnoc(",", rendered[..i], rendered[i]);
    }
    if i == |rendered| - 1 {
      assert rendered[..i + 1] == rendered;
    }
  }

  lemma AppendStep(head: string, rendered: seq<string>, i: nat, query: string, v: string)
    requires i < |rendered| && v == rendered[i]
    requires query == head + Written(rendered, i)
    ensures i < |rendered| - 1 ==> query + v + "," == head + Written(rendered, i + 1)
    ensures i == |rendered| - 1 ==> query + v == head + Written(rendered, i + 1)
  {
    WrittenStep(rendered, i);
  }

  /** The loop of insertInto: a comma after every value but the last. */
  method InsertInto(table: string, argList: seq<string>) returns (query: string)
    ensures query == InsertStatement(table, argList)
  {
    ghost var head := "insert into " + table + " values (";
    ghost var rendered := RenderAll(argList);
    query := "insert into " + table + " values (";
    for i := 0 to |argList|
      invariant query == head + Written(rendered, i)
    {
      var v := PyStrOf(TransformValueToQuery(argList[i]));
      AppendStep(head, rendered, i, query, v);
      if i < |argList| - 1 {
        query := query + v + ",";
      } else {
        query := query + v;
      }
    }
    query := query + ")";
  }

  /** A numeric token renders as an integer literal: no quote, no point, and it reads back as the half-even rounding of the token. */
  lemma NumberRendersAsInteger(value: string)
    requires ParseDecimal(value).Some?
    ensures var lit := ParseDecimal(value).value;
      && ParseInt(Render(value)).Some?
      && IsHalfEvenRounding(Numerator(lit), Denominator(lit), ParseInt(Render(value)).value)
      && '\'' !in Render(value) && '.' !in Render(value)
  {
    ValueToQueryCases(value);
    var n := TransformValueToQuery(value).i;
    IntToStringRoundTrip(n);
    IntegerTextCharacters(n);
  }

  lemma IntegerTextCharacters(n: int)
    ensures forall c :: c in IntToString(n) ==> c == '-' || IsDigit(c)
  {
    var s := IntToString(n);
    forall c | c in s
      ensures c == '-' || IsDigit(c)
    {
      var k :| 0 <= k < |s| && s[k] == c;
      if n < 0 {
        assert k == 0 || s[k] == NatToString(-n)[k - 1];
      }
    }
  }

  /** An integer written the way Python writes it comes back unchanged. */
  lemma IntegerTextUnchanged(n: int)
    ensures Render(IntToString(n)) == IntToString(n)
  {
    var magnitude: nat := if n < 0 then -n else n;
    var lit := Literal(if n < 0 then Minus else NoSign, NatToString(magnitude), false, []);
    assert Spell(lit) == IntToString(n);
    NatToStringValue(magnitude);
    assert Numerator(lit) == n;
    IntegerLiteralRenders(lit);
  }

  /** A plain digit string renders as its value, without the leading zeros ("007" gives 7). */
  lemma DigitsRenderAsValue(digits: string)
    requires |digits| >= 1 && AllDigits(digits)
    ensures Render(digits) == NatToString(DigitsValue(digits))
  {
    var lit := Literal(NoSign, digits, false, []);
    DigitsLiteral(digits, lit);
    IntegerLiteralRenders(lit);
  }

  lemma DigitsLiteral(digits: string, lit: Literal)
    requires |digits| >= 1 && AllDigits(digits)
    requires lit == Literal(NoSign, digits, false, [])
    ensures WellFormed(lit) && lit.fraction == [] && Spell(lit) == digits
    ensures Numerator(lit) == DigitsValue(digits)
  {
    assert Pow10(0) == 1 && DigitsValue([]) == 0;
  }

  /** The text of a numeric literal renders as the half-even rounding of its value. */
  lemma LiteralRenders(lit: Literal)
    requires WellFormed(lit)
    ensures Render(Spell(lit)) == IntToString(RoundHalfEven(Numerator(lit), Denominator(lit)))
  {
    ParseSpell(lit);
    ValueToQueryCases(Spell(lit));
    var z := TransformValueToQuery(Spell(lit)).i;
    HalfEvenRoundingUnique(Numerator(lit), Denominator(lit), z);
  }

  /** A literal without a fraction renders as exactly its value. */
  lemma IntegerLiteralRenders(lit: Literal)
    requires WellFormed(lit) && lit.fraction == []
    ensures Render(Spell(lit)) == IntToString(Numerator(lit))
  {
    LiteralRenders(lit);
    var v := Numerator(lit);
    assert Denominator(lit) == 1;
    HalfEvenRoundingUnique(v, 1, v);
  }

  /** A token in date shape is never a number, so the date parse always decides it. */
  lemma DateShapeIsNotNumber(s: string)
    requires IsoShape(s)
    ensures ParseDecimal(s).None?
  {
    assert SignOf(s) == NoSign;
    assert s[0..] == s;
    assert forall i :: 0 <= i < |s| ==> s[i] != '.';
    assert IndexOf(s, '.') == |s|;
  }

  /** A valid calendar date renders as its quoted YYYY/MM/DD form. */
  lemma DateRendersSlashed(s: string)
    requires ParseIsoDate(s).Some?
    ensures Render(s) == "'" + s[..4] + "/" + s[5..7] + "/" + s[8..] + "'"
  {
    DateShapeIsNotNumber(s);
    ValueToQueryCases(s);
  }

  /** A token in date shape that is no calendar date (month 13, 30 February) is quoted as it is. */
  lemma InvalidDateRendersQuoted(s: string)
    requires IsoShape(s) && ParseIsoDate(s).None?
    ensures Render(s) == "'" + s + "'"
  {
    DateShapeIsNotNumber(s);
    ValueToQueryCases(s);
  }

  /** A token that starts with anything but a digit, a sign or a point, and is not date-shaped, is quoted as it is. */
  lemma WordRendersQuoted(s: string)
    requires |s| >= 1 && !IsDigit(s[0]) && s[0] != '+' && s[0] != '-' && s[0] != '.'
    ensures Render(s) == "'" + s + "'"
  {
    assert SignOf(s) == NoSign;
    assert s[0..] == s;
    var k := IndexOf(s, '.');
    assert k >= 1;
    assert Parts(NoSign, s).whole[0] == s[0];
    ValueToQueryCases(s);
  }

  /** The empty argument list gives an empty values list. */
  lemma EmptyInsert(table: string)
    ensures InsertStatement(table, []) == "insert into " + table + " values ()"
  {
  }
}
