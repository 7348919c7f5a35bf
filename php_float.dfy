/**
 * How PHP writes a float into a string. With the `precision` setting at its
 * default of 14, a float is written rounded to 14 significant digits, and
 * trailing zeros are dropped. Floats are modelled as exact reals, so the
 * characters written are fixed by two things: the sign bit (a negative zero
 * is written "-0") and the value of the decimal written.
 */
module PhpFloat {

  /** A float as it appears in a string: its sign bit and the decimal value written. */
  datatype FloatText = FloatText(negative: bool, value: real)

  function Abs(x: real): real {
    if x < 0.0 then -x else x
  }

  /** The nearest integer to y, halves upward. */
  function RoundHalfUp(y: real): (n: int)
    ensures (n as real) - 0.5 <= y < (n as real) + 0.5
  {
    (y + 0.5).Floor
  }

  /**
   * A positive x below 10^14 rounded to 14 significant digits: x is scaled up
   * by tens until it has 14 digits before the point, rounded to a whole
   * number, and scaled back.
   */
  function PrintedBelow(x: real): (p: real)
    requires 0.0 < x < 100000000000000.0
    ensures (p - x) * 20000000000000.0 <= x && (x - p) * 20000000000000.0 <= x
    decreases (100000000000000.0 / x).Floor
  {
    if x >= 10000000000000.0 then RoundHalfUp(x) as real
    else
      assert 100000000000000.0 / (x * 10.0) == (100000000000000.0 / x) / 10.0;
      PrintedBelow(x * 10.0) / 10.0
  }

  /** A positive x of at least 10^14 rounded to 14 significant digits, scaling down by tens. */
  function PrintedAbove(x: real): (p: real)
    requires x >= 100000000000000.0
    ensures (p - x) * 20000000000000.0 <= x && (x - p) * 20000000000000.0 <= x
    decreases x.Floor
  {
    if x / 10.0 < 100000000000000.0 then PrintedBelow(x / 10.0) * 10.0
    else PrintedAbove(x / 10.0) * 10.0
  }

  /**
   * The value of the decimal PHP writes for x: x rounded to 14 significant
   * digits, so within half a unit of the fourteenth digit, and never zero
   * or of the other sign unless x is.
   */
  function Printed(x: real): (p: real)
    ensures Abs(p - x) * 20000000000000.0 <= Abs(x)
  {
    if x == 0.0 then 0.0
    else if x >= 100000000000000.0 then PrintedAbove(x)
    else if x > 0.0 then PrintedBelow(x)
    else if -x >= 100000000000000.0 then -PrintedAbove(-x)
    else -PrintedBelow(-x)
  }

  /** The text of a float: its sign and its value at 14 significant digits. */
  function TextOf(x: real): FloatText {
    FloatText(x < 0.0, Printed(x))
  }

  /**
   * A value with three decimals and fewer than 15 significant digits is
   * written exactly; this covers every rounded latitude and longitude.
   */
  lemma ThousandthsPrintExactly(k: int)
    requires -100000000000000 < k < 100000000000000
    ensures Printed(k as real / 1000.0) == k as real / 1000.0
  {
    if k > 0 {
      ScaledPrintsExactly(k, 3);
    } else if k < 0 {
      ScaledPrintsExactly(-k, 3);
      assert -(k as real / 1000.0) == (-k) as real / 1000.0;
    }
  }

  /** 10^d for d up to 3. */
  function Scale(d: nat): real
    requires d <= 3
  {
    if d == 0 then 1.0 else if d == 1 then 10.0 else if d == 2 then 100.0 else 1000.0
  }

  /**
   * n / 10^d, a number of at most 14 significant digits, is written exactly:
   * scaling it up by tens until it has 14 digits before the point gives a
   * whole number, which rounds to itself.
   */
  lemma {:induction false} ScaledPrintsExactly(n: int, d: nat)
    requires 0 < n < 100000000000000 && d <= 3
    ensures PrintedBelow(n as real / Scale(d)) == n as real / Scale(d)
    decreases d, 100000000000000 - n
  {
    var x := n as real / Scale(d);
    if d > 0 {
      assert x < 10000000000000.0;
      assert x * 10.0 == n as real / Scale(d - 1);
      ScaledPrintsExactly(n, d - 1);
    } else if x < 10000000000000.0 {
      assert x * 10.0 == (10 * n) as real / Scale(0);
      ScaledPrintsExactly(10 * n, 0);
    }
  }
}
