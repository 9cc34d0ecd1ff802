/**
 * Character-level helpers shared by the JavaScript and Python models:
 * white-space trimming, decimal rendering and reading, zero padding,
 * joining and splitting on a separator, and counting SQL placeholders.
 */
module Text {

  /**
   * JavaScript's white space and line terminators, the characters `trim()`
   * and `Number()` skip: tab, line feed, vertical tab, form feed, carriage
   * return, the space separators (U+0020, U+00A0, U+1680, U+2000..U+200A,
   * U+202F, U+205F, U+3000), U+2028, U+2029 and the byte-order mark U+FEFF.
   */
  predicate IsSpace(c: char) {
    || '\t' <= c <= '\r'
    || c == ' ' || c == '\U{00A0}' || c == '\U{1680}' || '\U{2000}' <= c <= '\U{200A}'
    || c == '\U{2028}' || c == '\U{2029}' || c == '\U{202F}' || c == '\U{205F}' || c == '\U{3000}'
    || c == '\U{FEFF}'
  }

  /**
   * Python's `str.isspace()`, the characters `str.strip()` removes: tab to
   * carriage return, the separators U+001C..U+001F, U+0085, the same space
   * separators as JavaScript, U+2028 and U+2029, but not U+FEFF.
   */
  predicate IsPySpace(c: char) {
    || '\t' <= c <= '\r' || '\U{001C}' <= c <= ' ' || c == '\U{0085}'
    || c == '\U{00A0}' || c == '\U{1680}' || '\U{2000}' <= c <= '\U{200A}'
    || c == '\U{2028}' || c == '\U{2029}' || c == '\U{202F}' || c == '\U{205F}' || c == '\U{3000}'
  }

  /** Every character is JavaScript white space. */
  predicate AllSpace(s: string) {
    forall i :: 0 <= i < |s| ==> IsSpace(s[i])
  }

  /** s without its leading characters in sp. */
  function TrimLeft(s: string, sp: char -> bool): (r: string)
    ensures |r| <= |s| && r == s[|s| - |r|..]
    ensures r == [] || !sp(r[0])
    ensures forall i :: 0 <= i < |s| - |r| ==> sp(s[i])
  {
    if s != [] && sp(s[0]) then TrimLeft(s[1..], sp) else s
  }

  /** s without its trailing characters in sp. */
  function TrimRight(s: string, sp: char -> bool): (r: string)
    ensures |r| <= |s| && r == s[..|r|]
    ensures r == [] || !sp(r[|r| - 1])
    ensures forall i :: |r| <= i < |s| ==> sp(s[i])
  {
    if s != [] && sp(s[|s| - 1]) then TrimRight(s[..|s| - 1], sp) else s
  }

  /** r is the slice of s that starts at a, and every character of s before or after it is in sp. */
  predicate TrimmedAt(s: string, r: string, a: int, sp: char -> bool) {
    && 0 <= a && a + |r| <= |s| && r == s[a..a + |r|]
    && (forall i :: 0 <= i < a ==> sp(s[i]))
    && (forall i :: a + |r| <= i < |s| ==> sp(s[i]))
  }

  /** s without the characters in sp at either end. */
  function TrimBoth(s: string, sp: char -> bool): (r: string)
    ensures r == [] || (!sp(r[0]) && !sp(r[|r| - 1]))
    ensures r == [] <==> forall i :: 0 <= i < |s| ==> sp(s[i])
    ensures forall c :: c in r ==> c in s
    ensures exists a :: TrimmedAt(s, r, a, sp)
  {
    var l := TrimLeft(s, sp);
    var r := TrimRight(l, sp);
    TrimmedBothEnds(s, l, r, sp);
    r
  }

  /**
   * Cutting from s a front part in sp, leaving l, and then from l a back part
   * in sp, leaving r, gives the slice r of s with no sp character at its ends.
   */
  lemma TrimmedBothEnds(s: string, l: string, r: string, sp: char -> bool)
    requires |l| <= |s| && l == s[|s| - |l|..] && (forall i :: 0 <= i < |s| - |l| ==> sp(s[i]))
    requires l == [] || !sp(l[0])
    requires |r| <= |l| && r == l[..|r|] && (forall i :: |r| <= i < |l| ==> sp(l[i]))
    requires r == [] || !sp(r[|r| - 1])
    ensures TrimmedAt(s, r, |s| - |l|, sp)
    ensures r == [] || (!sp(r[0]) && !sp(r[|r| - 1]))
    ensures r == [] <==> forall i :: 0 <= i < |s| ==> sp(s[i])
    ensures forall c :: c in r ==> c in s
  {
    var a := |s| - |l|;
    assert forall i :: a <= i < |s| ==> s[i] == l[i - a];
    assert r != [] ==> r[0] == l[0];
    assert (exists i :: 0 <= i < |s| && !sp(s[i])) ==> l != [] && !sp(l[0]);
  }

  /** JavaScript's `String.prototype.trim`. */
  function Trim(s: string): (r: string)
    ensures r == [] || (!IsSpace(r[0]) && !IsSpace(r[|r| - 1]))
    ensures r == [] <==> AllSpace(s)
    ensures exists a :: TrimmedAt(s, r, a, IsSpace)
  {
    TrimBoth(s, IsSpace)
  }

  /** Python's `str.strip()` without arguments. */
  function Strip(s: string): (r: string)
    ensures r == [] || (!IsPySpace(r[0]) && !IsPySpace(r[|r| - 1]))
    ensures r == [] <==> forall i :: 0 <= i < |s| ==> IsPySpace(s[i])
    ensures forall c :: c in r ==> c in s
    ensures exists a :: TrimmedAt(s, r, a, IsPySpace)
  {
    TrimBoth(s, IsPySpace)
  }

  /** A string that neither starts nor ends with a character in sp is its own trim. */
  lemma TrimIdentity(s: string, sp: char -> bool)
    requires s == [] || (!sp(s[0]) && !sp(s[|s| - 1]))
    ensures TrimBoth(s, sp) == s
  {
    if s != [] {
      assert TrimLeft(s, sp) == s;
      assert TrimRight(s, sp) == s;
    }
  }

  /** Trimming twice is trimming once. */
  lemma TrimIdempotent(s: string, sp: char -> bool)
    ensures TrimBoth(TrimBoth(s, sp), sp) == TrimBoth(s, sp)
  {
    TrimIdentity(TrimBoth(s, sp), sp);
  }

  // ---------------------------------------------------------------------------
  // Decimal digits

  predicate IsDigit(c: char) {
    '0' <= c <= '9'
  }

  predicate AllDigits(s: string) {
    forall i :: 0 <= i < |s| ==> IsDigit(s[i])
  }

  function DigitValue(c: char): (d: nat)
    requires IsDigit(c)
    ensures d < 10
  {
    c as int - '0' as int
  }

  function DigitChar(d: nat): (c: char)
    requires d < 10
    ensures IsDigit(c) && DigitValue(c) == d
  {
    ('0' as int + d) as char
  }

  /** The decimal numeral of n, most significant digit first, without leading zeros. */
  function NatToString(n: nat): (r: string)
    ensures |r| >= 1 && AllDigits(r)
    ensures r[0] == '0' ==> n == 0
  {
    if n < 10 then [DigitChar(n)] else NatToString(n / 10) + [DigitChar(n % 10)]
  }

  /** The value of a string of decimal digits (the empty string reads as 0). */
  function DigitsValue(s: string): nat
    requires AllDigits(s)
  {
    if s == [] then 0 else 10 * DigitsValue(s[..|s| - 1]) + DigitValue(s[|s| - 1])
  }

  /** Reading back the numeral of n gives n. */
  lemma {:induction false} NatToStringRoundTrip(n: nat)
    ensures DigitsValue(NatToString(n)) == n
  {
    if n >= 10 {
      NatToStringRoundTrip(n / 10);
      var s := NatToString(n / 10) + [DigitChar(n % 10)];
      assert s[..|s| - 1] == NatToString(n / 10);
    }
  }

  /** A leading zero does not change the value of a numeral. */
  lemma {:induction false} LeadingZeroValue(s: string)
    requires AllDigits(s)
    ensures AllDigits("0" + s) && DigitsValue("0" + s) == DigitsValue(s)
  {
    var t := "0" + s;
    if s != [] {
      LeadingZeroValue(s[..|s| - 1]);
      assert t[..|t| - 1] == "0" + s[..|s| - 1];
    }
  }

  /** String(n) for an integer n. */
  function IntToString(n: int): (r: string)
    ensures |r| >= 1
    ensures n >= 0 ==> AllDigits(r) && DigitsValue(r) == n
    ensures n < 0 ==> r[0] == '-' && AllDigits(r[1..]) && DigitsValue(r[1..]) == -n
  {
    NatToStringRoundTrip(if n < 0 then -n else n);
    if n < 0 then "-" + NatToString(-n) else NatToString(n)
  }

  /** String.prototype.padStart(2, '0'). */
  function PadStart2(s: string): (r: string)
    ensures |r| == if |s| >= 2 then |s| else 2
    ensures r[|r| - |s|..] == s
    ensures forall i :: 0 <= i < |r| - |s| ==> r[i] == '0'
  {
    if |s| >= 2 then s else if |s| == 1 then "0" + s else "00"
  }

  /** Zero padding keeps a numeral a numeral and keeps its value. */
  lemma PadStart2Value(s: string)
    requires AllDigits(s)
    ensures AllDigits(PadStart2(s)) && DigitsValue(PadStart2(s)) == DigitsValue(s)
  {
    if |s| == 1 {
      LeadingZeroValue(s);
    } else if |s| == 0 {
      LeadingZeroValue("0");
      LeadingZeroValue("");
    }
  }

  // ---------------------------------------------------------------------------
  // Joining and splitting

  /** Python's sep.join(parts) and JavaScript's parts.join(sep). */
  function Join(parts: seq<string>, sep: string): string
  {
    if |parts| == 0 then "" else if |parts| == 1 then parts[0] else parts[0] + sep + Join(parts[1..], sep)
  }

  lemma JoinCons(x: string, rest: seq<string>, sep: string)
    requires |rest| >= 1
    ensures Join([x] + rest, sep) == x + sep + Join(rest, sep)
  {
    assert ([x] + rest)[1..] == rest;
  }

  /** Python's s.split(sep) for a one-character separator: never empty, and "" splits into [""]. */
  function Split(s: string, sep: char): (r: seq<string>)
    ensures |r| >= 1
    ensures forall i :: 0 <= i < |r| ==> sep !in r[i]
    ensures Join(r, [sep]) == s
  {
    if s == [] then [""]
    else
      var rest := Split(s[1..], sep);
      if s[0] == sep then
        JoinCons("", rest, [sep]);
        assert s == [sep] + s[1..];
        [""] + rest
      else
        var head := [s[0]] + rest[0];
        assert sep !in head by {
          forall i | 0 <= i < |head| ensures head[i] != sep {
            if i > 0 { assert head[i] == rest[0][i - 1]; }
          }
        }
        if |rest| == 1 then
          assert s == [s[0]] + s[1..];
          [head]
        else
          JoinCons(head, rest[1..], [sep]);
          JoinCons(rest[0], rest[1..], [sep]);
          assert [rest[0]] + rest[1..] == rest;
          assert s == [s[0]] + s[1..];
          [head] + rest[1..]
  }

  lemma {:induction false} SplitNoSeparator(x: string, sep: char)
    requires sep !in x
    ensures Split(x, sep) == [x]
  {
    if x != [] {
      SplitNoSeparator(x[1..], sep);
      assert [x[0]] + x[1..] == x;
    }
  }

  lemma {:induction false} SplitAtSeparator(x: string, sep: char, y: string)
    requires sep !in x
    ensures Split(x + [sep] + y, sep) == [x] + Split(y, sep)
  {
    var s := x + [sep] + y;
    if x == [] {
      assert s[0] == sep && s[1..] == y;
      assert Split(s, sep) == [""] + Split(y, sep);
    } else {
      assert s[1..] == x[1..] + [sep] + y;
      SplitAtSeparator(x[1..], sep, y);
      var rest := Split(s[1..], sep);
      assert rest == [x[1..]] + Split(y, sep);
      assert |rest| >= 2 && rest[0] == x[1..] && rest[1..] == Split(y, sep);
      assert s[0] == x[0] && s[0] != sep;
      assert [s[0]] + rest[0] == x;
      assert Split(s, sep) == [[s[0]] + rest[0]] + rest[1..];
    }
  }

  /** Splitting a join of separator-free parts gives the parts back. */
  lemma {:induction false} SplitJoin(parts: seq<string>, sep: char)
    requires |parts| >= 1
    requires forall i :: 0 <= i < |parts| ==> sep !in parts[i]
    ensures Split(Join(parts, [sep]), sep) == parts
  {
    if |parts| == 1 {
      SplitNoSeparator(parts[0], sep);
    } else {
      SplitJoin(parts[1..], sep);
      SplitAtSeparator(parts[0], sep, Join(parts[1..], [sep]));
      assert [parts[0]] + parts[1..] == parts;
    }
  }

  // ---------------------------------------------------------------------------
  // SQL placeholders

  /** The number of occurrences of "%s" in s. */
  function Placeholders(s: string): nat
  {
    if |s| < 2 then 0 else (if s[0] == '%' && s[1] == 's' then 1 else 0) + Placeholders(s[1..])
  }

  /** Counting is additive across a seam that does not itself form "%s". */
  lemma {:induction false} PlaceholdersConcat(a: string, b: string)
    requires a == [] || b == [] || !(a[|a| - 1] == '%' && b[0] == 's')
    ensures Placeholders(a + b) == Placeholders(a) + Placeholders(b)
  {
    if |a| == 1 {
      if b != [] {
        assert (a + b)[1..] == b;
        assert (a + b)[0] == a[0] && (a + b)[1] == b[0];
      }
    } else if |a| >= 2 {
      PlaceholdersConcat(a[1..], b);
      var t := if a[0] == '%' && a[1] == 's' then 1 else 0;
      assert Placeholders(a) == t + Placeholders(a[1..]);
      assert (a + b)[1..] == a[1..] + b;
      assert (a + b)[0] == a[0] && (a + b)[1] == a[1];
      assert Placeholders(a + b) == t + Placeholders(a[1..] + b);
    } else {
      assert a + b == b;
    }
  }
}
