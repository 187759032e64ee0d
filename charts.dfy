/** The charts of the tracker page: per-pillar bars (`updatePillarChart`,
    `updateMoneyChart`) and the trailing three-month timeline
    (`updateMonthlyProgress`). Each fills a dictionary from the entry list in
    one pass and sizes its bars against the largest value in it. */
module Charts {
  import opened Wrappers
  import opened Calendar
  import opened Entries
  import opened Pillars
  import opened Dashboard

  /** What a chart groups entries by. */
  datatype Grouping = ByPillar | ByMonth

  /** The dictionary key of an entry: `getPillarKey(e.pillar)`, or the
      `YYYY-MM` key of its date. */
  function GroupKey(e: Entry, g: Grouping): string {
    match g
    case ByPillar => GetPillarKey(e.pillar)
    case ByMonth => MonthKey(MonthOf(e.date))
  }

  /** The keys a pass over `s` puts in the dictionary. */
  function GroupKeys(s: seq<Entry>, g: Grouping): set<string> {
    set e | e in s :: GroupKey(e, g)
  }

  /** The amounts of the entries whose key is `k`, added in list order. */
  function GroupSum(s: seq<Entry>, g: Grouping, m: Measure, k: string): real {
    if s == [] then 0.0
    else
      var last := s[|s| - 1];
      GroupSum(s[..|s| - 1], g, m, k) + (if GroupKey(last, g) == k then Amount(last, m) else 0.0)
  }

  /** A key no entry has sums to 0, which is what `totals[k] || 0` shows for it. */
  lemma {:induction false} GroupSumAbsent(s: seq<Entry>, g: Grouping, m: Measure, k: string)
    requires k !in GroupKeys(s, g)
    ensures GroupSum(s, g, m, k) == 0.0
  {
    if s != [] {
      var s' := s[..|s| - 1];
      assert GroupKeys(s', g) <= GroupKeys(s, g);
      assert s[|s| - 1] in s;
      GroupSumAbsent(s', g, m, k);
    }
  }

  lemma {:induction false} GroupSumNonNegative(s: seq<Entry>, g: Grouping, m: Measure, k: string)
    requires forall e :: e in s ==> Amount(e, m) >= 0.0
    ensures GroupSum(s, g, m, k) >= 0.0
  {
    if s != [] {
      assert forall e :: e in s[..|s| - 1] ==> e in s;
      assert s[|s| - 1] in s;
      GroupSumNonNegative(s[..|s| - 1], g, m, k);
    }
  }

  /** The pass of `forEach` that fills `pillarTotals`, `pillarMoneyTotals`,
      `monthlyTimeTotals` or `monthlyMoneyTotals`: one key per group present,
      holding the sum of that group's amounts. */
  method GroupTotals(s: seq<Entry>, g: Grouping, m: Measure) returns (totals: map<string, real>)
    ensures TotalsOf(totals, s, g, m)
  {
    totals := map[];
    var i := 0;
    while i < |s|
      invariant 0 <= i <= |s|
      invariant TotalsOf(totals, s[..i], g, m)
    {
      var e := s[i];
      assert s[..i + 1] == s[..i] + [e];
      AddToTotals(totals, s[..i], e, g, m);
      totals := totals[GroupKey(e, g) := Lookup(totals, GroupKey(e, g)) + Amount(e, m)];
      i := i + 1;
    }
    assert s[..|s|] == s;
  }

  /** `totals` is the dictionary of `s`: one key per group, holding the group's sum. */
  predicate TotalsOf(totals: map<string, real>, s: seq<Entry>, g: Grouping, m: Measure) {
    totals.Keys == GroupKeys(s, g) && forall k :: k in totals ==> totals[k] == GroupSum(s, g, m, k)
  }

  /** The loop body of the pass keeps the dictionary exact. */
  lemma AddToTotals(totals: map<string, real>, s: seq<Entry>, e: Entry, g: Grouping, m: Measure)
    requires TotalsOf(totals, s, g, m)
    ensures TotalsOf(totals[GroupKey(e, g) := Lookup(totals, GroupKey(e, g)) + Amount(e, m)], s + [e], g, m)
  {
    var next := totals[GroupKey(e, g) := Lookup(totals, GroupKey(e, g)) + Amount(e, m)];
    assert next.Keys == GroupKeys(s + [e], g) by {
      GroupKeysStep(s, e, g);
      assert next.Keys == totals.Keys + {GroupKey(e, g)};
    }
    forall k' | k' in next ensures next[k'] == GroupSum(s + [e], g, m, k') {
      AddedValue(totals, s, e, g, m, k');
    }
  }

  /** The value the loop body leaves under one key. */
  lemma AddedValue(totals: map<string, real>, s: seq<Entry>, e: Entry, g: Grouping, m: Measure, k': string)
    requires TotalsOf(totals, s, g, m)
    ensures Lookup(totals[GroupKey(e, g) := Lookup(totals, GroupKey(e, g)) + Amount(e, m)], k') == GroupSum(s + [e], g, m, k')
  {
    var k := GroupKey(e, g);
    GroupSumStep(s, e, g, m, k');
    if k' !in totals {
      GroupSumAbsent(s, g, m, k');
    }
  }

  /** One more entry adds its key to the keys... */
  lemma GroupKeysStep(s: seq<Entry>, e: Entry, g: Grouping)
    ensures GroupKeys(s + [e], g) == GroupKeys(s, g) + {GroupKey(e, g)}
  {
    assert forall x :: x in s + [e] <==> x in s || x == e;
  }

  /** ...and its amount to its own group only. */
  lemma GroupSumStep(s: seq<Entry>, e: Entry, g: Grouping, m: Measure, k: string)
    ensures GroupSum(s + [e], g, m, k) == GroupSum(s, g, m, k) + (if GroupKey(e, g) == k then Amount(e, m) else 0.0)
  {
    assert (s + [e])[..|s|] == s;
  }

  /** `totals[k] || 0`. */
  function Lookup(totals: map<string, real>, k: string): real {
    if k in totals then totals[k] else 0.0
  }

  /** `Math.max(...Object.values(totals))`, with None for the -Infinity of an empty dictionary. */
  method MaxOfValues(totals: map<string, real>) returns (max: Option<real>)
    ensures max.None? <==> totals == map[]
    ensures max.Some? ==> (exists k :: k in totals && totals[k] == max.value)
    ensures max.Some? ==> forall k :: k in totals ==> totals[k] <= max.value
  {
    max := None;
    var todo := totals.Keys;
    while todo != {}
      invariant todo <= totals.Keys
      invariant max.None? <==> todo == totals.Keys
      invariant max.Some? ==> (exists k :: k in totals && totals[k] == max.value)
      invariant max.Some? ==> forall k :: k in totals.Keys - todo ==> totals[k] <= max.value
      decreases todo
    {
      var k :| k in todo;
      if max.None? || totals[k] > max.value {
        max := Some(totals[k]);
      }
      todo := todo - {k};
    }
  }

  /** The width of a pillar bar: `max > 0 ? value / max * 100 : 0`. */
  function BarPercent(value: real, max: Option<real>): real {
    if max.Some? && max.value > 0.0 then value / max.value * 100.0 else 0.0
  }

  /** No entries, or no positive total: every bar is empty instead of NaN. */
  lemma BarPercentWithoutPositiveMax(value: real, max: Option<real>)
    requires max.None? || max.value <= 0.0
    ensures BarPercent(value, max) == 0.0
  {
  }

  /** A value between 0 and a positive maximum gives a width between 0 and
      100, and the maximum itself gives exactly 100. */
  lemma PercentOfPositive(value: real, max: real)
    requires max > 0.0
    ensures 0.0 <= value <= max ==> 0.0 <= value / max * 100.0 <= 100.0
    ensures value == max ==> value / max * 100.0 == 100.0
  {
    var q := value / max;
    assert q * max == value;
    if 0.0 <= value <= max {
      assert 0.0 <= q <= 1.0;
    }
  }

  /** `updatePillarChart` (time) or `updateMoneyChart` (money) for the bars
      whose `data-pillar` keys are `bars`: the largest pillar total and each
      bar's width. */
  method PillarBars(s: seq<Entry>, m: Measure, bars: seq<string>) returns (max: Option<real>, widths: seq<real>)
    ensures max.None? <==> s == []
    ensures max.Some? ==> exists e :: e in s && GroupSum(s, ByPillar, m, GroupKey(e, ByPillar)) == max.value
    ensures max.Some? ==> forall e :: e in s ==> GroupSum(s, ByPillar, m, GroupKey(e, ByPillar)) <= max.value
    ensures |widths| == |bars|
    ensures forall i :: 0 <= i < |bars| ==> widths[i] == BarPercent(GroupSum(s, ByPillar, m, bars[i]), max)
    ensures (max.None? || max.value <= 0.0) ==> forall i :: 0 <= i < |bars| ==> widths[i] == 0.0
    ensures (forall e :: e in s ==> GroupSum(s, ByPillar, m, GroupKey(e, ByPillar)) >= 0.0) ==>
      forall i :: 0 <= i < |bars| ==> 0.0 <= widths[i] <= 100.0
    ensures forall i :: (0 <= i < |bars| && max.Some? && max.value > 0.0 &&
                         GroupSum(s, ByPillar, m, bars[i]) == max.value) ==> widths[i] == 100.0
  {
    var totals := GroupTotals(s, ByPillar, m);
    max := MaxOfValues(totals);
    LargestGroup(s, ByPillar, m, totals, max);
    widths := seq(|bars|, i requires 0 <= i < |bars| => BarPercent(Lookup(totals, bars[i]), max));
    forall i | 0 <= i < |bars| {
      BarWidth(s, m, totals, max, bars[i]);
    }
  }

  /** The largest value of the dictionary is the sum of some entry's group
      and no group sums to more; there is none exactly when there are no entries. */
  lemma LargestGroup(s: seq<Entry>, g: Grouping, m: Measure, totals: map<string, real>, max: Option<real>)
    requires TotalsOf(totals, s, g, m)
    requires max.None? <==> totals == map[]
    requires max.Some? ==> (exists k :: k in totals && totals[k] == max.value)
    requires max.Some? ==> forall k :: k in totals ==> totals[k] <= max.value
    ensures max.None? <==> s == []
    ensures max.Some? ==> exists e :: e in s && GroupSum(s, g, m, GroupKey(e, g)) == max.value
    ensures max.Some? ==> forall e :: e in s ==> GroupSum(s, g, m, GroupKey(e, g)) <= max.value
  {
    if s != [] {
      assert GroupKey(s[0], g) in totals;
    }
    if max.Some? {
      var k :| k in totals && totals[k] == max.value;
      var e :| e in s && GroupKey(e, g) == k;
      assert GroupSum(s, g, m, GroupKey(e, g)) == max.value;
    }
    forall e | e in s ensures GroupKey(e, g) in totals {
    }
  }

  /** One bar: the dictionary's value for its key is the group's sum, and
      against the largest value the width lies between 0 and 100. */
  lemma BarWidth(s: seq<Entry>, m: Measure, totals: map<string, real>, max: Option<real>, k: string)
    requires TotalsOf(totals, s, ByPillar, m)
    requires max.Some? ==> forall k' :: k' in totals ==> totals[k'] <= max.value
    ensures BarPercent(Lookup(totals, k), max) == BarPercent(GroupSum(s, ByPillar, m, k), max)
    ensures max.Some? && max.value > 0.0 && GroupSum(s, ByPillar, m, k) == max.value ==>
      BarPercent(Lookup(totals, k), max) == 100.0
    ensures (forall e :: e in s ==> GroupSum(s, ByPillar, m, GroupKey(e, ByPillar)) >= 0.0) ==>
      0.0 <= BarPercent(Lookup(totals, k), max) <= 100.0
  {
    if k !in totals {
      GroupSumAbsent(s, ByPillar, m, k);
    }
    if max.Some? && max.value > 0.0 {
      if k in totals && (forall e :: e in s ==> GroupSum(s, ByPillar, m, GroupKey(e, ByPillar)) >= 0.0) {
        var e :| e in s && GroupKey(e, ByPillar) == k;
      }
      PercentOfPositive(GroupSum(s, ByPillar, m, k), max.value);
    }
  }

  /** The loop that pushes the displayed months: the current month and the
      two before it, oldest first. */
  method MonthWindow(now: YearMonth) returns (months: seq<YearMonth>)
    ensures |months| == 3
    ensures forall j :: 0 <= j < 3 ==> months[j] == MonthsBack(now, 2 - j)
    ensures ValidMonth(now) ==> months == [PrevMonth(PrevMonth(now)), PrevMonth(now), now]
  {
    months := [];
    var i := 2;
    while i >= 0
      invariant -1 <= i <= 2
      invariant |months| == 2 - i
      invariant forall j :: 0 <= j < |months| ==> months[j] == MonthsBack(now, 2 - j)
    {
      months := months + [MonthsBack(now, i)];
      i := i - 1;
    }
    if ValidMonth(now) {
      MonthsBackZero(now);
      MonthsBackStep(now, 0);
      MonthsBackStep(now, 1);
    }
  }

  /** One of the two timelines of `updateMonthlyProgress`: the three months,
      the divisor `Math.max(...Object.values(totals), 1)`, each month's total
      and each bar's height. */
  method MonthlyBars(s: seq<Entry>, now: YearMonth, m: Measure)
    returns (months: seq<YearMonth>, divisor: real, values: seq<real>, heights: seq<real>)
    ensures |months| == 3 && forall j :: 0 <= j < 3 ==> months[j] == MonthsBack(now, 2 - j)
    ensures divisor >= 1.0
    ensures forall e :: e in s ==> GroupSum(s, ByMonth, m, GroupKey(e, ByMonth)) <= divisor
    ensures divisor == 1.0 || exists e :: e in s && GroupSum(s, ByMonth, m, GroupKey(e, ByMonth)) == divisor
    ensures |values| == 3 && forall j :: 0 <= j < 3 ==> values[j] == GroupSum(s, ByMonth, m, MonthKey(months[j]))
    ensures |heights| == 3 && forall j :: 0 <= j < 3 ==> heights[j] == values[j] / divisor * 100.0
    ensures (forall e :: e in s ==> GroupSum(s, ByMonth, m, GroupKey(e, ByMonth)) >= 0.0) ==>
      forall j :: 0 <= j < 3 ==> 0.0 <= heights[j] <= 100.0
  {
    months := MonthWindow(now);
    var totals := GroupTotals(s, ByMonth, m);
    var max := MaxOfValues(totals);
    divisor := if max.Some? && max.value > 1.0 then max.value else 1.0;
    LargestGroup(s, ByMonth, m, totals, max);
    values := seq(3, j requires 0 <= j < 3 => Lookup(totals, MonthKey(months[j])));
    heights := seq(3, j requires 0 <= j < 3 => values[j] / divisor * 100.0);
    forall j | 0 <= j < 3
      ensures values[j] == GroupSum(s, ByMonth, m, MonthKey(months[j]))
      ensures (forall e :: e in s ==> GroupSum(s, ByMonth, m, GroupKey(e, ByMonth)) >= 0.0) ==> 0.0 <= heights[j] <= 100.0
    {
      var k := MonthKey(months[j]);
      if k !in totals {
        GroupSumAbsent(s, ByMonth, m, k);
      } else if (forall e :: e in s ==> GroupSum(s, ByMonth, m, GroupKey(e, ByMonth)) >= 0.0) {
        var e :| e in s && GroupKey(e, ByMonth) == k;
      }
      PercentOfPositive(values[j], divisor);
    }
  }

  /** With valid months, the timeline's total for a month is the total of
      exactly the entries dated in that month: the dashboard's current-month
      figure is the timeline's last bar. */
  lemma {:induction false} MonthGroupIsMonthTotal(s: seq<Entry>, ym: YearMonth, m: Measure)
    requires ValidMonth(ym)
    requires forall e :: e in s ==> ValidMonth(MonthOf(e.date))
    ensures GroupSum(s, ByMonth, m, MonthKey(ym)) == Total(EntriesIn(s, ym), m)
  {
    if s != [] {
      var s', last := s[..|s| - 1], s[|s| - 1];
      assert forall e :: e in s' ==> e in s;
      assert last in s;
      MonthGroupIsMonthTotal(s', ym, m);
      MonthGroupStep(s', last, ym, m);
    }
  }

  /** The last entry counts toward a month's key exactly when it is dated in that month. */
  lemma MonthGroupStep(s': seq<Entry>, last: Entry, ym: YearMonth, m: Measure)
    requires ValidMonth(ym) && ValidMonth(MonthOf(last.date))
    ensures (GroupKey(last, ByMonth) == MonthKey(ym)) == (MonthOf(last.date) == ym)
    ensures Total(EntriesIn(s', ym) + (if MonthOf(last.date) == ym then [last] else []), m)
      == Total(EntriesIn(s', ym), m) + (if MonthOf(last.date) == ym then Amount(last, m) else 0.0)
  {
    if GroupKey(last, ByMonth) == MonthKey(ym) {
      MonthKeyInjective(MonthOf(last.date), ym);
    }
    var within := EntriesIn(s', ym);
    if MonthOf(last.date) == ym {
      TotalAppend(within, [last], m);
      assert Total([last], m) == Amount(last, m) by { assert [last][..0] == []; }
    } else {
      assert within + [] == within;
    }
  }

  /** A month in which no entry is dated shows 0. */
  lemma EmptyMonthShowsZero(s: seq<Entry>, ym: YearMonth, m: Measure)
    requires ValidMonth(ym)
    requires forall e :: e in s ==> ValidMonth(MonthOf(e.date)) && MonthOf(e.date) != ym
    ensures GroupSum(s, ByMonth, m, MonthKey(ym)) == 0.0
  {
    forall e | e in s ensures GroupKey(e, ByMonth) != MonthKey(ym) {
      if GroupKey(e, ByMonth) == MonthKey(ym) {
        MonthKeyInjective(MonthOf(e.date), ym);
      }
    }
    GroupSumAbsent(s, ByMonth, m, MonthKey(ym));
  }
}
