/** Calendar dates as the store keeps them, and the month window of the
    monthly summary.

    Dates are stored as the text `str(date)` produces ("YYYY-MM-DD", the
    year padded to four digits). The monthly summary selects rows with
    `date BETWEEN "<year>-<MM>-01" AND "<year>-<MM>-31"`, where the year is
    printed with `f"{year}"` (no padding) and the month with `f"{month:02d}"`. */
module Dates {
  import opened Text

  /** `f"{year}-{month:02d}"`, the month label of the summary. For a
      four-digit year it reads back as "YYYY-MM"; a year below 1000 gives a
      shorter label, since the year is not padded. */
  function MonthLabel(year: int, month: int): (r: string)
    ensures 1000 <= year <= 9999 && 0 <= month < 100 ==>
      && |r| == 7 && r[4] == '-'
      && AllDigits(r[..4]) && DecimalValue(r[..4]) == year
      && AllDigits(r[5..]) && DecimalValue(r[5..]) == month
    ensures 0 <= year < 1000 && 0 <= month < 100 ==> |r| < 7
  {
    var r := FormatInt(year, 0) + "-" + FormatInt(month, 2);
    if 0 <= year <= 9999 && 0 <= month < 100 then
      TwoDigitMonth(month);
      if year >= 1000 then
        FourDigitYear(year);
        assert r[..4] == FormatInt(year, 4) && r[5..] == FormatInt(month, 2);
        r
      else
        DigitsFit(year, 3);
        r
    else r
  }

  /** Lower bound of the month window: `f"{year}-{month:02d}-01"`. For a
      four-digit year it is the stored form of the month's first day. */
  function MonthStart(year: int, month: int): (r: string)
    ensures 1000 <= year <= 9999 && 0 <= month < 100 ==> r == IsoDate(year, month, 1)
  {
    if 1000 <= year <= 9999 then
      FourDigitYear(year);
      TwoDigits(1);
      MonthLabel(year, month) + "-01"
    else MonthLabel(year, month) + "-01"
  }

  /** Upper bound of the month window: `f"{year}-{month:02d}-31"`, whatever
      the month's length. For a four-digit year it is the stored form of day
      31 of the month. */
  function MonthEnd(year: int, month: int): (r: string)
    ensures 1000 <= year <= 9999 && 0 <= month < 100 ==> r == IsoDate(year, month, 31)
  {
    if 1000 <= year <= 9999 then
      FourDigitYear(year);
      TwoDigits(31);
      MonthLabel(year, month) + "-31"
    else MonthLabel(year, month) + "-31"
  }

  /** SQL `d BETWEEN lo AND hi` on TEXT: inclusive at both ends, in collation
      order, and empty when `hi` sorts before `lo`. */
  function Between(d: string, lo: string, hi: string): (b: bool)
    ensures b <==> Le(lo, d) && Le(d, hi)
    ensures b ==> Le(lo, hi)
    ensures Le(lo, hi) && (d == lo || d == hi) ==> b
  {
    LeReflexive(lo);
    LeReflexive(hi);
    if Le(lo, d) && Le(d, hi) then
      LeTransitive(lo, d, hi);
      true
    else false
  }

  /** `str(datetime.date(y, m, d))`: "%04d-%02d-%02d". For a date in range
      the year, month and day read back from their fixed positions. */
  function IsoDate(y: int, m: int, d: int): (r: string)
    ensures |r| >= 10
    ensures DateInRange(y, m, d) ==>
      && |r| == 10 && r[4] == '-' && r[7] == '-'
      && AllDigits(r[..4]) && DecimalValue(r[..4]) == y
      && AllDigits(r[5..7]) && DecimalValue(r[5..7]) == m
      && AllDigits(r[8..]) && DecimalValue(r[8..]) == d
  {
    var r := FormatInt(y, 4) + "-" + FormatInt(m, 2) + "-" + FormatInt(d, 2);
    if DateInRange(y, m, d) then
      FourDigitYear(y);
      TwoDigitMonth(m);
      TwoDigitMonth(d);
      assert r[..4] == FormatInt(y, 4) && r[5..7] == FormatInt(m, 2) && r[8..] == FormatInt(d, 2);
      r
    else r
  }

  /** The year, month and day ranges `datetime.date` accepts; day 31 bounds every month. */
  predicate DateInRange(y: int, m: int, d: int) {
    1 <= y <= 9999 && 1 <= m <= 12 && 1 <= d <= 31
  }

  /** A four-digit year prints the same with and without padding. */
  lemma FourDigitYear(y: int)
    requires 1 <= y <= 9999
    ensures |FormatInt(y, 4)| == 4
    ensures 1000 <= y ==> FormatInt(y, 0) == FormatInt(y, 4)
  {
    DigitsFit(y, 4);
    DigitsFit(y, 3);
  }

  lemma TwoDigitMonth(m: int)
    requires 0 <= m < 100
    ensures |FormatInt(m, 2)| == 2
  {
    TwoDigits(m);
  }

  /** Every day 1..31 after a shared "YYYY-MM-" prefix lies in the window. */
  lemma DayInWindow(p: string, d: int)
    requires 1 <= d <= 31
    ensures Between(p + FormatInt(d, 2), p + "01", p + "31")
  {
    var day := FormatInt(d, 2);
    LeCommonPrefix(p, "01", day);
    LeCommonPrefix(p, day, "31");
    assert "01" == FormatInt(1, 2) && "31" == FormatInt(31, 2) by {
      TwoDigits(1);
      TwoDigits(31);
    }
    TwoDigitOrder(1, d);
    TwoDigitOrder(d, 31);
  }

  /** A date whose "YYYY-MM-" prefix differs from the window's lies outside it. */
  lemma OtherPrefixOutside(p: string, q: string, day: string)
    requires |p| == |q| && p != q
    ensures !Between(q + day, p + "01", p + "31")
  {
    LeFirstDifference(p, q, "01", day);
    LeFirstDifference(q, p, day, "31");
    if Le(p, q) && Le(q, p) {
      LeAntisymmetric(p, q);
    }
  }

  /** The "YYYY-MM-" prefixes of two dates in range agree exactly when their
      years and months do. */
  lemma MonthPrefixInjective(year: int, month: int, y: int, m: int)
    requires 1 <= year <= 9999 && 1 <= y <= 9999 && 0 <= month < 100 && 0 <= m < 100
    ensures (FormatInt(year, 4) + "-" + FormatInt(month, 2) + "-" == FormatInt(y, 4) + "-" + FormatInt(m, 2) + "-")
            <==> year == y && month == m
  {
    FourDigitYear(year);
    FourDigitYear(y);
    TwoDigitMonth(month);
    TwoDigitMonth(m);
    var p := FormatInt(year, 4) + "-" + FormatInt(month, 2) + "-";
    var q := FormatInt(y, 4) + "-" + FormatInt(m, 2) + "-";
    if p == q {
      assert FormatInt(year, 4) == p[..4] == q[..4] == FormatInt(y, 4);
      assert FormatInt(month, 2) == p[5..7] == q[5..7] == FormatInt(m, 2);
    }
  }

  /** The window of a month with a four-digit year holds exactly that month's
      dates, the short months included: the "-31" upper bound sorts after every
      real day of the month and before the next month. */
  lemma MonthWindowExact(year: int, month: int, y: int, m: int, d: int)
    requires 1000 <= year <= 9999 && 1 <= month <= 12
    requires DateInRange(y, m, d)
    ensures Between(IsoDate(y, m, d), MonthStart(year, month), MonthEnd(year, month))
            <==> y == year && m == month
  {
    FourDigitYear(year);
    var p := FormatInt(year, 4) + "-" + FormatInt(month, 2) + "-";
    var q := FormatInt(y, 4) + "-" + FormatInt(m, 2) + "-";
    assert MonthStart(year, month) == p + "01";
    assert MonthEnd(year, month) == p + "31";
    assert IsoDate(y, m, d) == q + FormatInt(d, 2);
    MonthPrefixInjective(year, month, y, m);
    if p == q {
      DayInWindow(p, d);
    } else {
      FourDigitYear(y);
      TwoDigitMonth(month);
      TwoDigitMonth(m);
      OtherPrefixOutside(p, q, FormatInt(d, 2));
    }
  }
}
