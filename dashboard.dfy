/** The summary cards of the tracker page (`updateDashboard`): all-time totals,
    the number of distinct pillars, and this month against the month before. */
module Dashboard {
  import opened Calendar
  import opened Entries

  /** `entries.filter(e => month and year of e.date are those of ym)`, order kept. */
  function EntriesIn(s: seq<Entry>, ym: YearMonth): (r: seq<Entry>)
    ensures |r| <= |s|
    ensures forall e :: e in r <==> e in s && MonthOf(e.date) == ym
  {
    if s == [] then []
    else
      var last := s[|s| - 1];
      assert s == s[..|s| - 1] + [last];
      EntriesIn(s[..|s| - 1], ym) + (if MonthOf(last.date) == ym then [last] else [])
  }

  /** Filtering a joined list filters each part in place: the partition keeps
      the order of the entries it holds. */
  lemma {:induction false} EntriesInAppend(a: seq<Entry>, b: seq<Entry>, ym: YearMonth)
    ensures EntriesIn(a + b, ym) == EntriesIn(a, ym) + EntriesIn(b, ym)
  {
    if b == [] {
      assert a + b == a;
    } else {
      var b' := b[..|b| - 1];
      assert (a + b)[..|a + b| - 1] == a + b' && (a + b)[|a + b| - 1] == b[|b| - 1];
      EntriesInLast(a + b, ym);
      EntriesInLast(b, ym);
      EntriesInAppend(a, b', ym);
    }
  }

  /** The partition holds each entry of its month as many times as the list
      does, and no other entry. */
  lemma {:induction false} EntriesInCount(s: seq<Entry>, ym: YearMonth)
    ensures forall e :: multiset(EntriesIn(s, ym))[e] == if MonthOf(e.date) == ym then multiset(s)[e] else 0
  {
    if s != [] {
      var s' := s[..|s| - 1];
      assert s == s' + [s[|s| - 1]];
      EntriesInLast(s, ym);
      EntriesInCount(s', ym);
    }
  }

  lemma EntriesInLast(s: seq<Entry>, ym: YearMonth)
    requires s != []
    ensures EntriesIn(s, ym) ==
      EntriesIn(s[..|s| - 1], ym) + (if MonthOf(s[|s| - 1].date) == ym then [s[|s| - 1]] else [])
  {
  }

  /** The current-month and previous-month partitions never share an entry. */
  lemma PartitionsDisjoint(s: seq<Entry>, now: YearMonth)
    ensures forall e :: e in EntriesIn(s, now) ==> e !in EntriesIn(s, PrevMonth(now))
  {
    PrevMonthDiffers(now);
  }

  /** `Math.round`: the integer nearest to `x`, halves rounded up. */
  function Round(x: real): (n: int)
    ensures n as real - 0.5 <= x < n as real + 0.5
  {
    (x + 0.5).Floor
  }

  /** The month-over-month change in percent. A previous value that is not
      positive reports 0, whatever the current value. */
  function PercentChange(current: real, previous: real): int {
    if previous > 0.0 then Round((current - previous) / previous * 100.0) else 0
  }

  lemma PercentChangeWithoutPrevious(current: real, previous: real)
    requires previous <= 0.0
    ensures PercentChange(current, previous) == 0
  {
  }

  /** With a positive previous value the change is the exact percentage rounded
      half up, and its sign is the sign of the difference. */
  lemma PercentChangeWithPrevious(current: real, previous: real)
    requires previous > 0.0
    ensures var exact := (current - previous) / previous * 100.0;
      PercentChange(current, previous) as real - 0.5 <= exact < PercentChange(current, previous) as real + 0.5
    ensures current >= previous ==> PercentChange(current, previous) >= 0
    ensures current <= previous ==> PercentChange(current, previous) <= 0
    ensures current == previous ==> PercentChange(current, previous) == 0
    ensures current == 2.0 * previous ==> PercentChange(current, previous) == 100
  {
    var q := (current - previous) / previous;
    assert q * previous == current - previous;
    assert current >= previous ==> q >= 0.0;
    assert current <= previous ==> q <= 0.0;
    if current == 2.0 * previous {
      assert current - previous == previous;
      assert q == previous / previous == 1.0;
    }
  }

  /** What the summary cards and their trend lines are given. */
  datatype Figures = Figures(
    totalTime: real,
    totalMoney: real,
    processes: nat,
    currentMonthTime: real,
    currentMonthMoney: real,
    currentMonthProcesses: nat,
    timeIncrease: int,
    moneyIncrease: int,
    processIncrease: int)

  /** `updateDashboard`, with the current month passed in instead of read
      from the clock. The all-time cards are the totals and the number of
      distinct pillars of the whole list, the month cards those of the
      month's entries, and the process change is the signed difference of
      the month's and the previous month's pillar counts. The process count
      stays within the number of entries and is 0 only without entries;
      with amounts that are never negative the month's cards lie between 0
      and the all-time cards; each trend compares the month's card with the
      month before. */
  function ComputeFigures(s: seq<Entry>, now: YearMonth): (r: Figures)
    ensures r.totalTime == Total(s, Time) && r.totalMoney == Total(s, Money) && r.processes == DistinctPillars(s)
    ensures r.currentMonthTime == Total(EntriesIn(s, now), Time) && r.currentMonthMoney == Total(EntriesIn(s, now), Money)
    ensures r.currentMonthProcesses == DistinctPillars(EntriesIn(s, now))
    ensures r.processIncrease == DistinctPillars(EntriesIn(s, now)) - DistinctPillars(EntriesIn(s, PrevMonth(now)))
    ensures r.processes <= |s| && (r.processes == 0 <==> s == [])
    ensures (forall i :: 0 <= i < |s| ==> Amount(s[i], Time) >= 0.0) ==> 0.0 <= r.currentMonthTime <= r.totalTime
    ensures (forall i :: 0 <= i < |s| ==> Amount(s[i], Money) >= 0.0) ==> 0.0 <= r.currentMonthMoney <= r.totalMoney
    ensures r.timeIncrease == PercentChange(r.currentMonthTime, Total(EntriesIn(s, PrevMonth(now)), Time))
    ensures r.moneyIncrease == PercentChange(r.currentMonthMoney, Total(EntriesIn(s, PrevMonth(now)), Money))
  {
    DistinctPillarsBounds(s);
    MonthTotalAtMost(s, now, Time);
    MonthTotalAtMost(s, now, Money);
    var current := EntriesIn(s, now);
    var previous := EntriesIn(s, PrevMonth(now));
    Figures(
      Total(s, Time),
      Total(s, Money),
      DistinctPillars(s),
      Total(current, Time),
      Total(current, Money),
      DistinctPillars(current),
      PercentChange(Total(current, Time), Total(previous, Time)),
      PercentChange(Total(current, Money), Total(previous, Money)),
      DistinctPillars(current) - DistinctPillars(previous))
  }

  /** With amounts that are never negative, one month's total lies between 0
      and the total of the whole list. */
  lemma MonthTotalAtMost(s: seq<Entry>, ym: YearMonth, m: Measure)
    ensures (forall i :: 0 <= i < |s| ==> Amount(s[i], m) >= 0.0) ==>
      0.0 <= Total(EntriesIn(s, ym), m) <= Total(s, m)
  {
    if forall i :: 0 <= i < |s| ==> Amount(s[i], m) >= 0.0 {
      MonthTotalBounded(s, ym, m);
    }
  }

  lemma {:induction false} MonthTotalBounded(s: seq<Entry>, ym: YearMonth, m: Measure)
    requires forall i :: 0 <= i < |s| ==> Amount(s[i], m) >= 0.0
    ensures 0.0 <= Total(EntriesIn(s, ym), m) <= Total(s, m)
    decreases |s|
  {
    if s != [] {
      MonthTotalBounded(s[..|s| - 1], ym, m);
      MonthTotalStep(EntriesIn(s[..|s| - 1], ym), s[|s| - 1], MonthOf(s[|s| - 1].date) == ym, m);
    }
  }

  lemma MonthTotalStep(kept: seq<Entry>, last: Entry, keep: bool, m: Measure)
    ensures Total(kept + (if keep then [last] else []), m) == Total(kept, m) + (if keep then Amount(last, m) else 0.0)
  {
    if keep {
      assert (kept + [last])[..|kept|] == kept;
    } else {
      assert kept + [] == kept;
    }
  }

  /** An empty list shows zero everywhere. */
  lemma FiguresOfNoEntries(now: YearMonth)
    ensures ComputeFigures([], now) == Figures(0.0, 0.0, 0, 0.0, 0.0, 0, 0, 0, 0)
  {
  }

  /** The month partitions hold no more distinct pillars than the whole list,
      so the process change lies between minus and plus the all-time count. */
  lemma {:induction false} ProcessChangeBounded(s: seq<Entry>, now: YearMonth)
    ensures var f := ComputeFigures(s, now);
      f.currentMonthProcesses <= f.processes && -(f.processes as int) <= f.processIncrease <= f.processes
  {
    var current, previous := EntriesIn(s, now), EntriesIn(s, PrevMonth(now));
    PillarsOfSubset(current, s);
    PillarsOfSubset(previous, s);
    var f := ComputeFigures(s, now);
    assert f.processes == DistinctPillars(s);
    assert f.currentMonthProcesses == DistinctPillars(current);
    assert f.processIncrease == DistinctPillars(current) - DistinctPillars(previous);
  }

  lemma PillarsOfSubset(a: seq<Entry>, b: seq<Entry>)
    requires forall e :: e in a ==> e in b
    ensures DistinctPillars(a) <= DistinctPillars(b)
  {
    var pa, pb := Pillars(a), Pillars(b);
    assert pa <= pb;
    assert pb == pa + (pb - pa);
    assert pa * (pb - pa) == {};
  }
}
