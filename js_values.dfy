/**
 * The few JavaScript value semantics the dashboards rely on: the primitive
 * values a form or a JSON body can carry, their truthiness, `String(v)`,
 * `Number(s)` on strings and `Math.round`.
 */
module JsValues {
  import opened Wrappers
  import opened Text

  /** A primitive JavaScript value. Numbers are limited to integers. */
  datatype JsValue = Undefined | Null | Bool(b: bool) | Num(n: int) | Str(s: string)

  /** JavaScript truthiness: undefined, null, false, 0 and "" are falsy. */
  predicate Truthy(v: JsValue) {
    match v
    case Undefined => false
    case Null => false
    case Bool(b) => b
    case Num(n) => n != 0
    case Str(s) => s != []
  }

  /** `String(v)`. */
  function ToString(v: JsValue): (r: string)
    ensures v.Str? ==> r == v.s
    ensures v.Num? ==> |r| >= 1 && (v.n >= 0 ==> AllDigits(r) && DigitsValue(r) == v.n)
    ensures v.Num? && v.n < 0 ==> r[0] == '-' && AllDigits(r[1..]) && DigitsValue(r[1..]) == -v.n
    ensures v.Bool? ==> r == (if v.b then "true" else "false")
  {
    match v
    case Undefined => "undefined"
    case Null => "null"
    case Bool(b) => if b then "true" else "false"
    case Num(n) => IntToString(n)
    case Str(s) => s
  }

  /** An optional sign followed by at least one decimal digit. */
  predicate IsIntegerNumeral(s: string) {
    if s != [] && (s[0] == '+' || s[0] == '-') then s[1..] != [] && AllDigits(s[1..])
    else s != [] && AllDigits(s)
  }

  /**
   * `Number(s)` for a string, restricted to integer numerals: white space
   * around the numeral is ignored, a blank string reads as 0, and anything
   * else is NaN (None).
   */
  function ToNumber(s: string): Option<int> {
    NumeralValue(Trim(s))
  }

  /** The value of an already trimmed string: blank is 0, an integer numeral its value, anything else NaN. */
  function NumeralValue(t: string): Option<int> {
    if t == [] then Some(0)
    else if !IsIntegerNumeral(t) then None
    else if t[0] == '-' then Some(0 - DigitsValue(t[1..]) as int)
    else if t[0] == '+' then Some(DigitsValue(t[1..]))
    else Some(DigitsValue(t))
  }

  /** A blank string reads as 0 and a plain decimal numeral as its value. */
  lemma ToNumberNumerals(s: string)
    ensures AllSpace(s) ==> ToNumber(s) == Some(0)
    ensures AllDigits(s) && s != [] ==> ToNumber(s) == Some(DigitsValue(s))
  {
    if AllDigits(s) && s != [] {
      DigitsHaveNoSpace(s);
      TrimNoSpace(s);
    }
  }

  /** A one-digit string reads as that digit. */
  lemma SingleDigitNumber(c: char)
    requires IsDigit(c)
    ensures ToNumber([c]) == Some(DigitValue(c))
  {
    var s := [c];
    assert s[..0] == [];
    assert AllDigits(s) && DigitsValue(s) == DigitValue(c);
    assert NumeralValue(s) == Some(DigitValue(c));
    DigitsHaveNoSpace(s);
    TrimNoSpace(s);
  }

  lemma DigitsHaveNoSpace(s: string)
    requires AllDigits(s)
    ensures forall i :: 0 <= i < |s| ==> !IsSpace(s[i])
  {
  }

  /** Trimming a string without white space changes nothing. */
  lemma TrimNoSpace(s: string)
    requires forall i :: 0 <= i < |s| ==> !IsSpace(s[i])
    ensures Trim(s) == s
  {
    assert TrimLeft(s, IsSpace) == s;
    assert TrimRight(s, IsSpace) == s;
  }

  /** `Math.round`: the nearest integer, halves rounded up. */
  function Round(x: real): (r: int)
    ensures x - 0.5 < r as real <= x + 0.5
  {
    (x + 0.5).Floor
  }

  /** Rounding never reverses an order. */
  lemma RoundMonotone(x: real, y: real)
    requires x <= y
    ensures Round(x) <= Round(y)
  {
  }

  /** An integer rounds to itself. */
  lemma RoundInt(n: int)
    ensures Round(n as real) == n
  {
  }

  /** JavaScript's `a % b` for b > 0: the remainder takes the sign of a. */
  function JsRem(a: int, b: int): (r: int)
    requires b > 0
    ensures a >= 0 ==> 0 <= r < b
    ensures a < 0 ==> -b < r <= 0
    ensures a >= 0 ==> r == a % b
  {
    if a >= 0 then a % b else -((-a) % b)
  }

  /**
   * The truncating remainder differs from the dividend by a multiple of the
   * divisor; with its range, this determines it.
   */
  lemma JsRemValue(a: int, b: int)
    requires b > 0
    ensures (a - JsRem(a, b)) % b == 0
    ensures a >= 0 ==> 0 <= JsRem(a, b) < b
    ensures a < 0 ==> -b < JsRem(a, b) <= 0
  {
    if a >= 0 {
      var q, m := a / b, a % b;
      assert a - m == q * b;
      MultipleRem(q, b);
    } else {
      var q, m := (-a) / b, (-a) % b;
      assert a + m == (-q) * b;
      MultipleRem(-q, b);
    }
  }

  /** A multiple of b leaves no remainder. */
  lemma MultipleRem(q: int, b: int)
    requires b > 0
    ensures (q * b) % b == 0
  {
    var x := q * b;
    var k, m := q - x / b, x % b;
    assert b * k == m;
    if k >= 1 {
      assert b * k == b * (k - 1) + b;
      PositiveProduct(b, k - 1);
    } else if k <= -1 {
      assert b * k == b * (k + 1) - b;
      PositiveProduct(b, -(k + 1));
    }
  }

  lemma PositiveProduct(b: int, k: int)
    requires b > 0 && k >= 0
    ensures b * k >= 0
  {
  }
}
