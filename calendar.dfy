/** Calendar values of the tracker: the `date` column (a DATE, no time of day),
    the months the dashboard compares and the `YYYY-MM` keys the monthly charts
    group by. Months are numbered 1..12 as in the date text; the JavaScript
    `getMonth()` index is this number minus one. */
module Calendar {
  import opened Wrappers
  import opened Text

  datatype Date = Date(year: int, month: int, day: int)

  datatype YearMonth = YearMonth(year: int, month: int)

  predicate IsLeapYear(y: int) {
    y % 4 == 0 && (y % 100 != 0 || y % 400 == 0)
  }

  function DaysInMonth(y: int, m: int): (n: int)
    requires 1 <= m <= 12
    ensures 28 <= n <= 31
  {
    if m == 2 then (if IsLeapYear(y) then 29 else 28)
    else if m == 4 || m == 6 || m == 9 || m == 11 then 30
    else 31
  }

  predicate ValidMonth(ym: YearMonth) {
    1 <= ym.month <= 12
  }

  /** A value the DATE column accepts, within the range MySQL documents for it. */
  predicate ValidDate(d: Date) {
    1000 <= d.year <= 9999 && 1 <= d.month <= 12 && 1 <= d.day <= DaysInMonth(d.year, d.month)
  }

  function MonthOf(d: Date): YearMonth {
    YearMonth(d.year, d.month)
  }

  /** Chronological order of dates, year first, then month, then day. */
  predicate Before(a: Date, b: Date) {
    a.year < b.year || (a.year == b.year && (a.month < b.month || (a.month == b.month && a.day < b.day)))
  }

  /** A position on the calendar: days counted as if every month had 31. On
      dates with sensible months and days it orders exactly as `Before` does
      (lemma OrdinalOrdersChronologically), and it is what sorting compares. */
  function Ordinal(d: Date): int {
    ((d.year * 12) + (d.month - 1)) * 31 + (d.day - 1)
  }

  predicate InRange(d: Date) {
    1 <= d.month <= 12 && 1 <= d.day <= 31
  }

  lemma OrdinalOrdersChronologically(a: Date, b: Date)
    requires InRange(a) && InRange(b)
    ensures Ordinal(a) < Ordinal(b) <==> Before(a, b)
    ensures Ordinal(a) == Ordinal(b) <==> a == b
  {
    var ma, mb := a.year * 12 + (a.month - 1), b.year * 12 + (b.month - 1);
    assert Ordinal(a) == ma * 31 + (a.day - 1) && Ordinal(b) == mb * 31 + (b.day - 1);
    if ma < mb {
      assert (ma + 1) * 31 <= mb * 31;
    } else if ma > mb {
      assert (mb + 1) * 31 <= ma * 31;
    }
    assert ma < mb <==> (a.year < b.year || (a.year == b.year && a.month < b.month));
    assert ma == mb <==> (a.year == b.year && a.month == b.month);
  }

  /** The month before `ym`: the previous number in the same year, except that
      January goes to December of the year before. */
  function PrevMonth(ym: YearMonth): (p: YearMonth)
    ensures ValidMonth(ym) ==> ValidMonth(p)
  {
    if ym.month == 1 then YearMonth(ym.year - 1, 12) else YearMonth(ym.year, ym.month - 1)
  }

  /** The month `i` months before `ym`, as `new Date(year, month - i, 1)` normalises it. */
  function MonthsBack(ym: YearMonth, i: int): (r: YearMonth)
    ensures ValidMonth(r)
  {
    var t := ym.year * 12 + (ym.month - 1) - i;
    YearMonth(t / 12, t % 12 + 1)
  }

  lemma MonthsBackZero(ym: YearMonth)
    requires ValidMonth(ym)
    ensures MonthsBack(ym, 0) == ym
  {
    var t := ym.year * 12 + (ym.month - 1);
    assert t / 12 == ym.year && t % 12 == ym.month - 1;
  }

  /** Going one month further back is going to the previous month, year rollover included. */
  lemma MonthsBackStep(ym: YearMonth, i: int)
    ensures MonthsBack(ym, i + 1) == PrevMonth(MonthsBack(ym, i))
  {
    var t := ym.year * 12 + (ym.month - 1) - i;
    var y, m := t / 12, t % 12;
    assert t == y * 12 + m && 0 <= m < 12;
    if m == 0 {
      assert t - 1 == (y - 1) * 12 + 11;
      assert (t - 1) / 12 == y - 1 && (t - 1) % 12 == 11;
    } else {
      assert t - 1 == y * 12 + (m - 1);
      assert (t - 1) / 12 == y && (t - 1) % 12 == m - 1;
    }
  }

  lemma PrevMonthDiffers(ym: YearMonth)
    ensures PrevMonth(ym) != ym
  {
  }

  /** `String(m).padStart(2, '0')`. */
  function Pad2(s: string): (r: string)
    ensures |s| >= 2 ==> r == s
  {
    if |s| == 0 then "00" else if |s| == 1 then "0" + s else s
  }

  /** The chart key of a month: the year as `${year}` writes it, a hyphen, and
      the month number padded to two digits. */
  function MonthKey(ym: YearMonth): string {
    IntToString(ym.year) + "-" + Pad2(IntToString(ym.month))
  }

  /** A month or day number padded to two digits reads back as itself. */
  lemma {:induction false} TwoDigitPart(n: int)
    requires 0 <= n <= 99
    ensures var p := Pad2(IntToString(n)); |p| == 2 && AllDigits(p) && DigitsValue(p) == n
  {
    var s := NatToString(n);
    DigitsValueOfNatToString(n);
    if n < 10 {
      assert s == [DigitChar(n)];
      var p := "0" + s;
      assert p[..1] == "0";
    } else {
      assert s == NatToString(n / 10) + [DigitChar(n % 10)];
    }
  }

  /** Keys of valid months are `YYYY-MM` for four-digit years... */
  lemma MonthKeyShape(ym: YearMonth)
    requires ValidMonth(ym) && 1000 <= ym.year <= 9999
    ensures var k := MonthKey(ym); |k| == 7 && k[4] == '-' && AllDigits(k[..4]) && AllDigits(k[5..])
  {
    var y := ym.year;
    var a, b, c := y / 10, y / 100, y / 1000;
    assert a / 10 == b && b / 10 == c && 1 <= c < 10;
    assert |NatToString(c)| == 1;
    assert |NatToString(b)| == 2;
    assert |NatToString(a)| == 3;
    assert |NatToString(y)| == 4;
    TwoDigitPart(ym.month);
    var k := MonthKey(ym);
    assert k[..4] == NatToString(y);
    assert k[5..] == Pad2(IntToString(ym.month));
  }

  /** ...and two different valid months never share a key, so grouping entries
      by key is grouping them by month. */
  lemma MonthKeyInjective(a: YearMonth, b: YearMonth)
    requires ValidMonth(a) && ValidMonth(b)
    requires MonthKey(a) == MonthKey(b)
    ensures a == b
  {
    var k := MonthKey(a);
    TwoDigitPart(a.month);
    TwoDigitPart(b.month);
    var ya, yb := IntToString(a.year), IntToString(b.year);
    var pa, pb := Pad2(IntToString(a.month)), Pad2(IntToString(b.month));
    assert |pa| == 2 && |pb| == 2;
    assert k == ya + "-" + pa && k == yb + "-" + pb;
    assert |ya| == |yb| && ya == k[..|ya|] && yb == k[..|yb|];
    assert pa == k[|k| - 2..] && pb == k[|k| - 2..];
    IntToStringInjective(a.year, b.year);
  }

  /** The text of a date as the DATE column reads and writes it: `YYYY-MM-DD`. */
  function DateText(d: Date): string {
    MonthKey(MonthOf(d)) + "-" + Pad2(IntToString(d.day))
  }

  /** Reads `YYYY-MM-DD`; None for any other text and for a day the calendar does not have. */
  function ParseDateText(s: string): (r: Option<Date>)
    ensures r.Some? ==> ValidDate(r.value)
  {
    if |s| == 10 && s[4] == '-' && s[7] == '-' && AllDigits(s[..4]) && AllDigits(s[5..7]) && AllDigits(s[8..]) then
      var d := Date(DigitsValue(s[..4]), DigitsValue(s[5..7]), DigitsValue(s[8..]));
      if ValidDate(d) then Some(d) else None
    else None
  }

  /** Every valid date reads back from its own text. */
  lemma DateTextRoundTrip(d: Date)
    requires ValidDate(d)
    ensures ParseDateText(DateText(d)) == Some(d)
  {
    var k := MonthKey(MonthOf(d));
    MonthKeyShape(MonthOf(d));
    TwoDigitPart(d.month);
    TwoDigitPart(d.day);
    var dd := Pad2(IntToString(d.day));
    var s := DateText(d);
    assert s[..7] == k && s[7] == '-' && s[8..] == dd;
    assert s[..4] == k[..4] == NatToString(d.year);
    assert s[5..7] == k[5..] == Pad2(IntToString(d.month));
    DigitsValueOfNatToString(d.year);
  }
}
