/** Text values as the store compares and formats them.

    SQLite compares TEXT values with its BINARY collation: byte by byte on
    UTF-8, which orders strings exactly as comparing their code points one
    after the other. Python's `f"{n:0Wd}"` formats an integer in decimal,
    padded with zeros after the sign to at least W characters. */
module Text {

  /** `a <= b` under the BINARY collation: lexicographic, a proper prefix first.
      `LeTotal`, `LeTransitive` and `LeAntisymmetric` show it is a total order. */
  predicate Le(a: string, b: string): (r: bool)
    ensures |a| <= |b| && a == b[..|a|] ==> r
    decreases |a|
  {
    if a == [] then true
    else if b == [] then false
    else if a[0] != b[0] then a[0] < b[0]
    else Le(a[1..], b[1..])
  }

  lemma {:induction false} LeReflexive(a: string)
    ensures Le(a, a)
    decreases |a|
  {
    if a != [] {
      LeReflexive(a[1..]);
    }
  }

  lemma {:induction false} LeTotal(a: string, b: string)
    ensures Le(a, b) || Le(b, a)
    decreases |a|
  {
    if a != [] && b != [] && a[0] == b[0] {
      LeTotal(a[1..], b[1..]);
    }
  }

  lemma {:induction false} LeTransitive(a: string, b: string, c: string)
    requires Le(a, b) && Le(b, c)
    ensures Le(a, c)
    decreases |a|
  {
    if a != [] && b != [] && c != [] && a[0] == b[0] && b[0] == c[0] {
      LeTransitive(a[1..], b[1..], c[1..]);
    }
  }

  lemma {:induction false} LeAntisymmetric(a: string, b: string)
    requires Le(a, b) && Le(b, a)
    ensures a == b
    decreases |a|
  {
    if a != [] && b != [] {
      LeAntisymmetric(a[1..], b[1..]);
      assert a == [a[0]] + a[1..];
      assert b == [b[0]] + b[1..];
    }
  }

  /** A shared prefix does not decide the comparison. */
  lemma {:induction false} LeCommonPrefix(p: string, a: string, b: string)
    ensures Le(p + a, p + b) == Le(a, b)
    decreases |p|
  {
    if p != [] {
      assert (p + a)[0] == (p + b)[0];
      assert (p + a)[1..] == p[1..] + a;
      assert (p + b)[1..] == p[1..] + b;
      LeCommonPrefix(p[1..], a, b);
      assert Le(p + a, p + b) == Le((p + a)[1..], (p + b)[1..]);
    } else {
      assert p + a == a && p + b == b;
    }
  }

  /** Two different prefixes of the same length decide the comparison alone. */
  lemma {:induction false} LeFirstDifference(p: string, q: string, a: string, b: string)
    requires |p| == |q| && p != q
    ensures Le(p + a, q + b) == Le(p, q)
    decreases |p|
  {
    assert (p + a)[0] == p[0] && (q + b)[0] == q[0];
    if p[0] == q[0] {
      assert p == [p[0]] + p[1..] && q == [q[0]] + q[1..];
      assert p[1..] != q[1..];
      assert (p + a)[1..] == p[1..] + a;
      assert (q + b)[1..] == q[1..] + b;
      LeFirstDifference(p[1..], q[1..], a, b);
    }
  }

  // ---------------------------------------------------------------------
  // Decimal formatting

  predicate IsDigit(c: char) {
    '0' <= c <= '9'
  }

  predicate AllDigits(s: string) {
    forall i :: 0 <= i < |s| ==> IsDigit(s[i])
  }

  function DigitChar(d: nat): (c: char)
    requires d < 10
    ensures IsDigit(c)
  {
    (48 + d) as char
  }

  function DigitValue(c: char): (d: nat)
    requires IsDigit(c)
    ensures d < 10
  {
    (c as int) - 48
  }

  /** The decimal digits of `n`, without leading zeros ("0" for zero). */
  function Digits(n: nat): (s: string)
    ensures |s| >= 1 && AllDigits(s)
  {
    if n < 10 then [DigitChar(n)] else Digits(n / 10) + [DigitChar(n % 10)]
  }

  /** `s` with zeros in front, to at least `width` characters. */
  function ZeroPad(s: string, width: nat): (r: string)
    ensures |r| == if |s| >= width then |s| else width
    ensures AllDigits(s) ==> AllDigits(r)
    decreases width - |s|
  {
    if |s| >= width then s else "0" + ZeroPad(s, width - 1)
  }

  /** Python's `format(n, "0<width>d")`; width 0 is `str(n)`. The result is
      at least `width` characters long, and reading its digits back (after the
      sign of a negative number) gives the number. */
  function FormatInt(n: int, width: nat): (r: string)
    ensures |r| >= width && |r| >= 1
    ensures n >= 0 ==> AllDigits(r) && DecimalValue(r) == n
    ensures n >= 0 ==> |r| == if |Digits(n)| >= width then |Digits(n)| else width
    ensures n < 0 ==> |r| >= 2 && r[0] == '-' && AllDigits(r[1..]) && DecimalValue(r[1..]) == -n
    ensures n < 0 ==> |r| == 1 + if |Digits(-n)| >= width - 1 then |Digits(-n)| else width - 1
  {
    var m: nat := if n < 0 then -n else n;
    var w := if n < 0 && width > 0 then width - 1 else if n < 0 then 0 else width;
    var digits := ZeroPad(Digits(m), w);
    DecimalValueOfZeroPad(Digits(m), w);
    DecimalValueOfDigits(m);
    if n < 0 then
      assert ("-" + digits)[1..] == digits;
      "-" + digits
    else digits
  }

  /** The number a string of decimal digits denotes. */
  function DecimalValue(s: string): nat
    requires AllDigits(s)
  {
    if s == [] then 0 else DecimalValue(s[..|s| - 1]) * 10 + DigitValue(s[|s| - 1])
  }

  function Pow10(k: nat): (p: nat)
    ensures p >= 1
  {
    if k == 0 then 1 else 10 * Pow10(k - 1)
  }

  lemma {:induction false} DecimalValueOfDigits(n: nat)
    ensures DecimalValue(Digits(n)) == n
  {
    if n >= 10 {
      var s := Digits(n);
      assert s[..|s| - 1] == Digits(n / 10);
      DecimalValueOfDigits(n / 10);
    }
  }

  lemma {:induction false} DecimalValueLeadingZero(s: string)
    requires AllDigits(s)
    ensures AllDigits("0" + s) && DecimalValue("0" + s) == DecimalValue(s)
    decreases |s|
  {
    if s != [] {
      var z := "0" + s;
      assert z[..|z| - 1] == "0" + s[..|s| - 1];
      DecimalValueLeadingZero(s[..|s| - 1]);
    }
  }

  lemma {:induction false} DecimalValueOfZeroPad(s: string, width: nat)
    requires AllDigits(s)
    ensures DecimalValue(ZeroPad(s, width)) == DecimalValue(s)
    decreases width - |s|
  {
    if |s| < width {
      DecimalValueOfZeroPad(s, width - 1);
      DecimalValueLeadingZero(ZeroPad(s, width - 1));
    }
  }

  /** `n` has at most `k` digits exactly when it is below 10^k. */
  lemma {:induction false} DigitsFit(n: nat, k: nat)
    requires k >= 1
    ensures |Digits(n)| <= k <==> n < Pow10(k)
  {
    if n >= 10 {
      if k == 1 {
        assert |Digits(n / 10)| >= 1;
      } else {
        DigitsFit(n / 10, k - 1);
      }
    }
  }

  /** Below 100, the two-character form is the tens digit then the units digit. */
  lemma TwoDigits(n: nat)
    requires n < 100
    ensures FormatInt(n, 2) == [DigitChar(n / 10), DigitChar(n % 10)]
  {
    if n >= 10 {
      assert Digits(n / 10) == [DigitChar(n / 10)];
      assert Digits(n) == [DigitChar(n / 10), DigitChar(n % 10)];
    } else {
      assert Digits(n) == [DigitChar(n)];
      assert ZeroPad(Digits(n), 1) == Digits(n);
      assert n / 10 == 0 && n % 10 == n;
    }
  }

  /** On two-character forms the collation agrees with the numeric order. */
  lemma TwoDigitOrder(a: nat, b: nat)
    requires a < 100 && b < 100
    ensures Le(FormatInt(a, 2), FormatInt(b, 2)) <==> a <= b
  {
    TwoDigits(a);
    TwoDigits(b);
    var x, y := FormatInt(a, 2), FormatInt(b, 2);
    assert x[1..] == [x[1]] && y[1..] == [y[1]];
    assert Le(x[1..], y[1..]) == (x[1] <= y[1]) by {
      assert [x[1]][1..] == [] && [y[1]][1..] == [];
    }
    assert (x[0] < y[0]) == (a / 10 < b / 10);
    assert (x[1] <= y[1]) == (a % 10 <= b % 10);
    assert a <= b <==> a / 10 < b / 10 || (a / 10 == b / 10 && a % 10 <= b % 10);
  }
}
