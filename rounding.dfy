/**
 * Rounding an exact rational to an integer, half to even: the rule Python's
 * `round` applies to a `Decimal` when no digit count is given.
 */
module Rounding {

  function Abs(x: int): (a: nat) {
    if x < 0 then -x else x
  }

  /**
   * `z` is an integer nearest to num/den, and the even one of the two when
   * num/den lies exactly half-way between neighbours.
   */
  ghost predicate IsHalfEvenRounding(num: int, den: int, z: int) {
    && den > 0
    && 2 * Abs(num - z * den) <= den
    && (2 * Abs(num - z * den) == den ==> z % 2 == 0)
  }

  /** Rounds num/den half to even; Dafny's `/` and `%` are Euclidean, so negative numerators need no case of their own. */
  function RoundHalfEven(num: int, den: int): (z: int)
    requires den > 0
    ensures IsHalfEvenRounding(num, den, z)
  {
    var q, rem := num / den, num % den;
    assert num - q * den == rem;
    assert num - (q + 1) * den == rem - den;
    if 2 * rem < den then q
    else if 2 * rem > den then q + 1
    else if q % 2 == 0 then q
    else q + 1
  }

  /** The half-even rounding is unique: any integer meeting the rule is the one RoundHalfEven returns. */
  lemma HalfEvenRoundingUnique(num: int, den: int, z: int)
    requires IsHalfEvenRounding(num, den, z)
    ensures z == RoundHalfEven(num, den)
  {
    var q, rem := num / den, num % den;
    var k := q - z;
    assert num - z * den == rem + k * den by {
      assert z * den == q * den - k * den;
    }
    if k >= 1 {
      MulAtLeast(k, den);
      assert false;
    } else if k <= -2 {
      MulAtLeast(-k, den);
      assert -k * den >= 2 * den by {
        MulAtLeast(-k - 1, den);
        assert -k * den == (-k - 1) * den + den;
      }
      assert false;
    }
  }

  lemma MulAtLeast(k: int, den: int)
    requires k >= 1 && den > 0
    ensures k * den >= den
  {
    assert k * den == (k - 1) * den + den;
  }

  lemma RoundingExamples()
    ensures RoundHalfEven(24, 10) == 2
    ensures RoundHalfEven(25, 10) == 2
    ensures RoundHalfEven(35, 10) == 4
    ensures RoundHalfEven(-25, 10) == -2
    ensures RoundHalfEven(-26, 10) == -3
    ensures RoundHalfEven(7, 1) == 7
  {
  }
}
