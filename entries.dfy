/** The tracker's record: one claimed time/money saving. The same shape is a
    row of the `entries` table on the server and an element of the entry list
    the page keeps in memory. */
module Entries {
  import opened Wrappers
  import opened Calendar

  /** `description` is None for a NULL column value; `moneySaved` is None when
      the field is absent on the page (the column itself is never NULL). */
  datatype Entry = Entry(
    id: int,
    pillar: string,
    task: string,
    description: Option<string>,
    timeSaved: real,
    moneySaved: Option<real>,
    date: Date)

  /** The two quantities every chart and total adds up. */
  datatype Measure = Time | Money

  /** The amount an entry contributes: `timeSaved`, or `moneySaved || 0`. */
  function Amount(e: Entry, m: Measure): real {
    match m
    case Time => e.timeSaved
    case Money => e.moneySaved.GetOr(0.0)
  }

  /** `entries.reduce((sum, e) => sum + amount(e), 0)`: a left fold, so the
      last entry is added last. */
  function Total(s: seq<Entry>, m: Measure): real {
    if s == [] then 0.0 else Total(s[..|s| - 1], m) + Amount(s[|s| - 1], m)
  }

  lemma {:induction false} TotalAppend(a: seq<Entry>, b: seq<Entry>, m: Measure)
    ensures Total(a + b, m) == Total(a, m) + Total(b, m)
  {
    if b == [] {
      assert a + b == a;
    } else {
      var b' := b[..|b| - 1];
      assert (a + b)[..|a + b| - 1] == a + b';
      TotalAppend(a, b', m);
    }
  }

  /** Taking one entry out of a list takes its amount off the total. */
  lemma TotalRemoveAt(b: seq<Entry>, j: int, m: Measure)
    requires 0 <= j < |b|
    ensures Total(b, m) == Total(b[..j] + b[j + 1..], m) + Amount(b[j], m)
  {
    assert b == (b[..j] + [b[j]]) + b[j + 1..];
    TotalAppend(b[..j] + [b[j]], b[j + 1..], m);
    TotalAppend(b[..j], [b[j]], m);
    TotalAppend(b[..j], b[j + 1..], m);
    assert Total([b[j]], m) == Amount(b[j], m) by { assert [b[j]][..0] == []; }
  }

  /** Totals do not depend on the order of the entries, so sorting the list
      in place for the history view leaves every total as it was. */
  lemma {:induction false} TotalPermutation(a: seq<Entry>, b: seq<Entry>, m: Measure)
    requires multiset(a) == multiset(b)
    ensures Total(a, m) == Total(b, m)
  {
    if a == [] {
      assert |b| == |multiset(b)| == 0;
    } else {
      var x := a[|a| - 1];
      var a' := a[..|a| - 1];
      MultisetRemoveAt(a, |a| - 1);
      assert a[..|a| - 1] + a[|a|..] == a';
      assert x in multiset(b);
      var j :| 0 <= j < |b| && b[j] == x;
      var b' := b[..j] + b[j + 1..];
      MultisetRemoveAt(b, j);
      TotalRemoveAt(b, j, m);
      TotalPermutation(a', b', m);
    }
  }

  lemma MultisetRemoveAt<T>(s: seq<T>, j: int)
    requires 0 <= j < |s|
    ensures multiset(s[..j] + s[j + 1..]) == multiset(s) - multiset{s[j]}
  {
    assert s == s[..j] + [s[j]] + s[j + 1..];
  }

  /** Amounts that are never negative add up to a total that is not negative. */
  lemma {:induction false} TotalNonNegative(s: seq<Entry>, m: Measure)
    requires forall i :: 0 <= i < |s| ==> Amount(s[i], m) >= 0.0
    ensures Total(s, m) >= 0.0
  {
    if s != [] {
      TotalNonNegative(s[..|s| - 1], m);
    }
  }

  /** `new Set(entries.map(e => e.pillar))`. */
  function Pillars(s: seq<Entry>): set<string> {
    set e | e in s :: e.pillar
  }

  /** `.size` of that set: the number of "processes optimized". */
  function DistinctPillars(s: seq<Entry>): nat {
    |Pillars(s)|
  }

  /** There are never more distinct pillars than entries, and none exactly when there are no entries. */
  lemma {:induction false} DistinctPillarsBounds(s: seq<Entry>)
    ensures DistinctPillars(s) <= |s|
    ensures DistinctPillars(s) == 0 <==> s == []
  {
    if s != [] {
      var s' := s[..|s| - 1];
      var x := s[|s| - 1];
      assert s == s' + [x];
      assert Pillars(s) == Pillars(s') + {x.pillar};
      assert x.pillar in Pillars(s);
      DistinctPillarsBounds(s');
    }
  }
}
