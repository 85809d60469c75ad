/**
 * The subset of Python's `Decimal` string syntax the model accepts: an
 * optional sign, then digits with an optional decimal point, at least one
 * digit in all ("42", "-2.5", "7.", ".5", "+007").
 */
module DecimalLiteral {

  import opened Wrappers
  import opened Text

  datatype Sign = NoSign | Plus | Minus

  /** A numeric literal in parts: its sign, the digits before the point, whether a point is written, the digits after it. */
  datatype Literal = Literal(sign: Sign, whole: string, point: bool, fraction: string)

  predicate WellFormed(lit: Literal) {
    && AllDigits(lit.whole)
    && AllDigits(lit.fraction)
    && (!lit.point ==> lit.fraction == [])
    && |lit.whole| + |lit.fraction| >= 1
  }

  function SignText(sign: Sign): (s: string) {
    match sign
    case NoSign => ""
    case Plus => "+"
    case Minus => "-"
  }

  /** The text of a literal, the inverse of ParseDecimal. */
  function Spell(lit: Literal): (s: string) {
    SignText(lit.sign) + lit.whole + (if lit.point then "." + lit.fraction else "")
  }

  function SignOf(s: string): (sign: Sign) {
    if |s| >= 1 && s[0] == '+' then Plus
    else if |s| >= 1 && s[0] == '-' then Minus
    else NoSign
  }

  /** Cuts the text after the sign at its first point. */
  function Parts(sign: Sign, rest: string): (lit: Literal)
    ensures Spell(lit) == SignText(sign) + rest
  {
    var k := IndexOf(rest, '.');
    if k < |rest| then
      assert rest == rest[..k] + "." + rest[k + 1..];
      Literal(sign, rest[..k], true, rest[k + 1..])
    else
      Literal(sign, rest, false, [])
  }

  /** Parses the token the way `Decimal(value)` does on this subset; None where it raises InvalidOperation. */
  function ParseDecimal(s: string): (r: Option<Literal>) {
    var sign := SignOf(s);
    var lit := Parts(sign, s[|SignText(sign)|..]);
    if WellFormed(lit) then Some(lit) else None
  }

  /** Text the parser accepts is a well-formed literal spelled exactly as that text. */
  lemma ParseDecimalSound(s: string)
    requires ParseDecimal(s).Some?
    ensures WellFormed(ParseDecimal(s).value) && Spell(ParseDecimal(s).value) == s
  {
    var sign := SignOf(s);
    assert SignText(sign) + s[|SignText(sign)|..] == s;
  }

  /** Every well-formed literal is read back from its own text. */
  lemma ParseSpell(lit: Literal)
    requires WellFormed(lit)
    ensures ParseDecimal(Spell(lit)) == Some(lit)
  {
    var rest := lit.whole + (if lit.point then "." + lit.fraction else "");
    SignOfSpell(lit, rest);
    PartsOfUnsigned(lit, rest);
  }

  /** The sign is read off the front of a literal's text, leaving the unsigned part. */
  lemma SignOfSpell(lit: Literal, rest: string)
    requires WellFormed(lit)
    requires rest == lit.whole + (if lit.point then "." + lit.fraction else "")
    ensures SignOf(Spell(lit)) == lit.sign
    ensures Spell(lit)[|SignText(lit.sign)|..] == rest
  {
    var s := Spell(lit);
    assert s == SignText(lit.sign) + rest;
    if lit.whole != [] {
      assert IsDigit(rest[0]);
    }
  }

  /** The unsigned part of a literal's text splits back into its digits at the first point. */
  lemma PartsOfUnsigned(lit: Literal, rest: string)
    requires WellFormed(lit)
    requires rest == lit.whole + (if lit.point then "." + lit.fraction else "")
    ensures Parts(lit.sign, rest) == lit
  {
    var k := IndexOf(rest, '.');
    assert forall i :: 0 <= i < |lit.whole| ==> rest[i] == lit.whole[i];
    if lit.point {
      assert rest[|lit.whole|] == '.';
      assert rest[..k] == lit.whole;
      assert rest[k + 1..] == lit.fraction;
    } else {
      assert rest == lit.whole;
    }
  }

  function Pow10(k: nat): (p: nat)
    ensures p >= 1
  {
    if k == 0 then 1 else 10 * Pow10(k - 1)
  }

  /** The literal's exact value is Numerator(lit) / Denominator(lit): whole + fraction / 10^|fraction|, with the sign. */
  function Numerator(lit: Literal): (n: int)
    requires WellFormed(lit)
  {
    var magnitude := DigitsValue(lit.whole) * Pow10(|lit.fraction|) + DigitsValue(lit.fraction);
    if lit.sign == Minus then -magnitude else magnitude
  }

  function Denominator(lit: Literal): (d: nat)
    ensures d >= 1
  {
    Pow10(|lit.fraction|)
  }
}
