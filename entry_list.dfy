/** The entry list the page keeps in memory (`window.trackerDataInMemory`),
    the edits `handleFormSubmission` and `deleteEntry` make to it, the
    in-place sort of `updateHistoryDisplay`, and the two history filter
    predicates of `applyFilters` that depend on nothing but the entry. */
module EntryList {
  import opened Wrappers
  import opened Calendar
  import opened Entries
  import opened Pillars

  /** `entries.findIndex(e => e.id === id)`. */
  function FindIndex(s: seq<Entry>, id: int): (r: int)
    ensures -1 <= r < |s|
    ensures r == -1 <==> forall i :: 0 <= i < |s| ==> s[i].id != id
    ensures r >= 0 ==> s[r].id == id && forall i :: 0 <= i < r ==> s[i].id != id
  {
    if s == [] then -1
    else if s[0].id == id then 0
    else
      var r := FindIndex(s[1..], id);
      assert forall i :: 1 <= i < |s| ==> s[i] == s[1..][i - 1];
      if r == -1 then -1 else r + 1
  }

  /** `if (idx !== -1) data.entries[idx] = updated`: the first entry with the
      id is replaced; every other position keeps its entry. */
  function ReplaceById(s: seq<Entry>, id: int, updated: Entry): (r: seq<Entry>)
    ensures |r| == |s|
    ensures forall i :: 0 <= i < |s| && i != FindIndex(s, id) ==> r[i] == s[i]
    ensures FindIndex(s, id) >= 0 ==> r[FindIndex(s, id)] == updated
    ensures (forall i :: 0 <= i < |s| ==> s[i].id != id) ==> r == s
  {
    var idx := FindIndex(s, id);
    if idx == -1 then s else s[idx := updated]
  }

  /** Replacing takes the old entry out of the list and puts the new one in... */
  lemma ReplaceByIdMultiset(s: seq<Entry>, id: int, updated: Entry)
    requires FindIndex(s, id) >= 0
    ensures var idx := FindIndex(s, id);
      multiset(ReplaceById(s, id, updated)) == multiset(s) - multiset{s[idx]} + multiset{updated}
  {
    var idx := FindIndex(s, id);
    var r := ReplaceById(s, id, updated);
    assert r[idx] == updated;
    assert r[..idx] + r[idx + 1..] == s[..idx] + s[idx + 1..];
    MultisetRemoveAt(s, idx);
    MultisetRemoveAt(r, idx);
    assert multiset(r) == multiset(r) - multiset{updated} + multiset{updated};
  }

  /** ...so the totals move by the difference between the two. */
  lemma ReplaceByIdTotal(s: seq<Entry>, id: int, updated: Entry, m: Measure)
    requires FindIndex(s, id) >= 0
    ensures var idx := FindIndex(s, id);
      Total(ReplaceById(s, id, updated), m) == Total(s, m) - Amount(s[idx], m) + Amount(updated, m)
  {
    var idx := FindIndex(s, id);
    var r := ReplaceById(s, id, updated);
    TotalRemoveAt(s, idx, m);
    TotalRemoveAt(r, idx, m);
    assert r[..idx] + r[idx + 1..] == s[..idx] + s[idx + 1..];
  }

  /** `entries.filter(e => e.id !== id)`, order kept. */
  function WithoutId(s: seq<Entry>, id: int): (r: seq<Entry>)
    ensures |r| <= |s|
    ensures forall e :: e in r <==> e in s && e.id != id
  {
    if s == [] then []
    else
      var last := s[|s| - 1];
      assert s == s[..|s| - 1] + [last];
      WithoutId(s[..|s| - 1], id) + (if last.id != id then [last] else [])
  }

  /** Deleting from a concatenation deletes from each part: the entries that
      stay keep their relative order. */
  lemma {:induction false} WithoutIdAppend(a: seq<Entry>, b: seq<Entry>, id: int)
    ensures WithoutId(a + b, id) == WithoutId(a, id) + WithoutId(b, id)
  {
    if b == [] {
      assert a + b == a;
    } else {
      var b' := b[..|b| - 1];
      assert (a + b)[..|a + b| - 1] == a + b';
      WithoutIdAppend(a, b', id);
    }
  }

  /** A list without the id is left exactly as it was. */
  lemma {:induction false} WithoutAbsentId(s: seq<Entry>, id: int)
    requires forall i :: 0 <= i < |s| ==> s[i].id != id
    ensures WithoutId(s, id) == s
  {
    if s != [] {
      WithoutAbsentId(s[..|s| - 1], id);
      assert s == s[..|s| - 1] + [s[|s| - 1]];
    }
  }

  /** Deleting an entry just created with an id no other entry has gives back
      the list as it was before the create. */
  lemma DeleteUndoesCreate(s: seq<Entry>, created: Entry)
    requires forall i :: 0 <= i < |s| ==> s[i].id != created.id
    ensures WithoutId([created] + s, created.id) == s
  {
    WithoutIdAppend([created], s, created.id);
    WithoutAbsentId(s, created.id);
    assert WithoutId([created], created.id) == [] by {
      assert [created][..0] == [];
    }
  }

  /** `getPillarKey(entry.pillar) === pillarFilter`, applied when the filter is not empty. */
  predicate PillarFilterKeeps(e: Entry, pillarFilter: string) {
    pillarFilter == "" || GetPillarKey(e.pillar) == pillarFilter
  }

  /** The date filter for one entry. `this-year` keeps the entries of the
      current year, an empty or an unrecognised choice keeps everything, and
      the two relative choices are None: they are not modelled. */
  function DateFilterKeeps(e: Entry, dateFilter: string, today: Date): Option<bool> {
    if dateFilter == "last-month" || dateFilter == "last-quarter" then None
    else if dateFilter == "this-year" then Some(e.date.year == today.year)
    else Some(true)
  }

  /** `applyFilters` as written: `filteredEntries` is declared `const`, so
      the first reassignment throws a TypeError. Only with both filters empty
      does the copy reach the history view. */
  function ApplyFiltersAsWritten(s: seq<Entry>, pillarFilter: string, dateFilter: string): Result<seq<Entry>, string> {
    if pillarFilter != "" then Err(AssignToConstant)
    else if dateFilter != "" then Err(AssignToConstant)
    else Ok(s)
  }

  const AssignToConstant: string := "TypeError: Assignment to constant variable."

  /** `applyFilters` with the reassignments it evidently intends: the
      entries both filters keep, order kept. None when the date filter is one
      of the two relative choices, which are not modelled. */
  function ApplyFilters(s: seq<Entry>, pillarFilter: string, dateFilter: string, today: Date): (r: Option<seq<Entry>>)
    ensures r.None? <==> dateFilter == "last-month" || dateFilter == "last-quarter"
    ensures r.Some? ==> |r.value| <= |s|
    ensures r.Some? ==> forall e :: e in r.value <==>
      e in s && PillarFilterKeeps(e, pillarFilter) && DateFilterKeeps(e, dateFilter, today) == Some(true)
    ensures r.Some? && pillarFilter == "" && dateFilter == "" ==> r.value == s
  {
    if dateFilter == "last-month" || dateFilter == "last-quarter" then None
    else if s == [] then Some([])
    else
      var last := s[|s| - 1];
      var kept := ApplyFilters(s[..|s| - 1], pillarFilter, dateFilter, today).value;
      assert s == s[..|s| - 1] + [last];
      var keep := PillarFilterKeeps(last, pillarFilter) && DateFilterKeeps(last, dateFilter, today) == Some(true);
      Some(kept + (if keep then [last] else []))
  }

  /** The discrepancy on a one-entry list: choosing the entry's own pillar in
      the filter throws as written, where the evident intent keeps the entry. */
  lemma AsWrittenFilterThrows(e: Entry, today: Date)
    requires e.pillar == "HR Operations"
    ensures ApplyFiltersAsWritten([e], "hr-operations", "").Err?
    ensures ApplyFilters([e], "hr-operations", "", today) == Some([e])
  {
    LookupsFindThePillar(HrOperations);
    assert e.pillar == Name(HrOperations);
    assert GetPillarKey(e.pillar) == Key(HrOperations) == "hr-operations";
    assert PillarFilterKeeps(e, "hr-operations");
    assert DateFilterKeeps(e, "", today) == Some(true);
    var s := [e];
    assert s[..|s| - 1] == [] && s[|s| - 1] == e;
    assert ApplyFilters([], "hr-operations", "", today) == Some([]);
    assert ApplyFilters(s, "hr-operations", "", today) == Some([] + [e]);
    assert [] + [e] == s;
  }

  /** Without filters the two agree: the whole list is shown. */
  lemma FiltersAgreeWhenEmpty(s: seq<Entry>, today: Date)
    ensures ApplyFiltersAsWritten(s, "", "") == Ok(s)
    ensures ApplyFilters(s, "", "", today) == Some(s)
  {
  }

  /** A date choice the switch does not name falls to `default` and, with
      no pillar filter, the whole list comes through in its order. */
  lemma {:induction false} UnnamedDateChoiceKeepsAll(s: seq<Entry>, dateFilter: string, today: Date)
    requires dateFilter != "last-month" && dateFilter != "last-quarter" && dateFilter != "this-year"
    ensures ApplyFilters(s, "", dateFilter, today) == Some(s)
  {
    if s != [] {
      UnnamedDateChoiceKeepsAll(s[..|s| - 1], dateFilter, today);
      assert s == s[..|s| - 1] + [s[|s| - 1]];
    }
  }

  /** Filtering the filtered list again with the same choices changes nothing. */
  lemma {:induction false} ApplyFiltersTwice(s: seq<Entry>, pillarFilter: string, dateFilter: string, today: Date)
    requires ApplyFilters(s, pillarFilter, dateFilter, today).Some?
    ensures ApplyFilters(ApplyFilters(s, pillarFilter, dateFilter, today).value, pillarFilter, dateFilter, today)
      == ApplyFilters(s, pillarFilter, dateFilter, today)
  {
    if s != [] {
      ApplyFiltersTwice(s[..|s| - 1], pillarFilter, dateFilter, today);
      var kept := ApplyFilters(s[..|s| - 1], pillarFilter, dateFilter, today).value;
      if PillarFilterKeeps(s[|s| - 1], pillarFilter) && DateFilterKeeps(s[|s| - 1], dateFilter, today) == Some(true) {
        assert ApplyFilters(s, pillarFilter, dateFilter, today).value == kept + [s[|s| - 1]];
        assert (kept + [s[|s| - 1]])[..|kept|] == kept;
      } else {
        assert ApplyFilters(s, pillarFilter, dateFilter, today).value == kept + [];
        assert kept + [] == kept;
      }
    }
  }

  /** An entry saved from the form stores the display name of the selected
      key; the history filter set to that same key keeps it, for the six
      table keys and for any other key in slug form. */
  lemma FormEntryPassesItsFilter(e: Entry, formKey: string)
    requires e.pillar == GetPillarDisplayName(formKey)
    requires PillarOfKey(formKey).Some? || IsSlugForm(formKey)
    ensures PillarFilterKeeps(e, formKey)
  {
    match PillarOfKey(formKey)
    case Some(p) => KeyOfDisplayName(p);
    case None => UnknownKeyRoundTrip(formKey);
  }

  /** The sort key: the comparator subtracts the dates' time values, which
      order as the dates' ordinals do. */
  function SortKey(e: Entry): int {
    Ordinal(e.date)
  }

  /** Newest first: no entry is dated after one before it. */
  predicate NewestFirst(s: seq<Entry>) {
    forall i, j :: 0 <= i < j < |s| ==> SortKey(s[j]) <= SortKey(s[i])
  }

  /** `entries.sort((a, b) => new Date(b.date) - new Date(a.date))`, done here
      as an insertion sort in place. */
  method SortNewestFirst(a: array<Entry>)
    modifies a
    ensures NewestFirst(a[..])
    ensures multiset(a[..]) == old(multiset(a[..]))
  {
    var i := 0;
    while i < a.Length
      invariant 0 <= i <= a.Length
      invariant NewestFirst(a[..i])
      invariant multiset(a[..]) == old(multiset(a[..]))
    {
      InsertInPlace(a, i);
      i := i + 1;
    }
    assert a[..a.Length] == a[..];
  }

  /** One step of the sort: the entry at `i` moves left past every entry
      dated before it, so the first `i + 1` entries are newest first. */
  method InsertInPlace(a: array<Entry>, i: int)
    requires 0 <= i < a.Length
    requires NewestFirst(a[..i])
    modifies a
    ensures NewestFirst(a[..i + 1])
    ensures multiset(a[..]) == old(multiset(a[..]))
  {
    var j := i;
    assert Inserting(a[..], i, j);
    while j > 0 && SortKey(a[j - 1]) < SortKey(a[j])
      invariant 0 <= j <= i
      invariant Inserting(a[..], i, j)
      invariant multiset(a[..]) == old(multiset(a[..]))
    {
      ghost var before := a[..];
      a[j - 1], a[j] := a[j], a[j - 1];
      assert a[..] == before[j - 1 := before[j]][j := before[j - 1]];
      SwapStep(before, i, j);
      j := j - 1;
    }
    InsertedPrefix(a[..], i, j);
  }

  /** The state of the insertion loop: apart from the moving entry at `j`,
      the first `i + 1` entries are newest first, and every entry after `j`
      is older than the moving one. */
  predicate Inserting(s: seq<Entry>, i: int, j: int) {
    0 <= j <= i < |s| &&
    (forall p, q :: 0 <= p < q <= i && p != j && q != j ==> SortKey(s[q]) <= SortKey(s[p])) &&
    (forall q :: j < q <= i ==> SortKey(s[q]) < SortKey(s[j]))
  }

  /** Swapping the moving entry with an older neighbour keeps the loop state. */
  lemma SwapStep(s: seq<Entry>, i: int, j: int)
    requires Inserting(s, i, j) && 0 < j && SortKey(s[j - 1]) < SortKey(s[j])
    ensures Inserting(s[j - 1 := s[j]][j := s[j - 1]], i, j - 1)
    ensures multiset(s[j - 1 := s[j]][j := s[j - 1]]) == multiset(s)
  {
    var t := s[j - 1 := s[j]][j := s[j - 1]];
    forall p, q | 0 <= p < q <= i && p != j - 1 && q != j - 1 ensures SortKey(t[q]) <= SortKey(t[p]) {
      if q == j {
        assert SortKey(t[q]) < SortKey(s[j]);
      }
    }
  }

  /** Where the insertion loop stops, the first `i + 1` entries are newest first. */
  lemma InsertedPrefix(s: seq<Entry>, i: int, j: int)
    requires Inserting(s, i, j)
    requires j == 0 || SortKey(s[j]) <= SortKey(s[j - 1])
    ensures NewestFirst(s[..i + 1])
  {
    forall p, q | 0 <= p < q <= i ensures SortKey(s[q]) <= SortKey(s[p]) {
      if q == j && p < j - 1 {
        assert SortKey(s[j]) <= SortKey(s[j - 1]) <= SortKey(s[p]);
      }
    }
  }

  /** `data`: the entry list as the page holds it between requests. */
  class TrackerData {
    var entries: seq<Entry>

    constructor (entries: seq<Entry>)
      ensures this.entries == entries
    {
      this.entries := entries;
    }

    /** `data.entries.unshift(created)`: the new entry in front, the others behind it in order. */
    method Create(created: Entry)
      modifies this
      ensures entries == [created] + old(entries)
    {
      entries := [created] + entries;
    }

    /** The update branch of `handleFormSubmission`, once the server has answered with `updated`. */
    method Update(id: int, updated: Entry)
      modifies this
      ensures entries == ReplaceById(old(entries), id, updated)
    {
      var idx := FindIndex(entries, id);
      if idx != -1 {
        entries := entries[idx := updated];
      }
    }

    /** `deleteEntry`, once the server has confirmed. */
    method Delete(id: int)
      modifies this
      ensures entries == WithoutId(old(entries), id)
      ensures forall e :: e in entries ==> e.id != id
    {
      entries := WithoutId(entries, id);
    }

    /** `updateHistoryDisplay(data.entries)`: the sort works on the list
        itself, so the list the page keeps is left newest first. */
    method ShowHistory()
      modifies this
      ensures NewestFirst(entries)
      ensures multiset(entries) == multiset(old(entries))
      ensures forall m :: Total(entries, m) == Total(old(entries), m)
    {
      var s := entries;
      var a := new Entry[|s|](i requires 0 <= i < |s| => s[i]);
      assert a[..] == s;
      SortNewestFirst(a);
      entries := a[..];
      forall m: Measure ensures Total(entries, m) == Total(s, m) {
        TotalPermutation(entries, s, m);
      }
    }
  }

  /** What a caller can conclude from the contracts alone: an entry created
      and then deleted leaves the list as it was, and editing it first does
      not change that. The page redraws the history after each step, and
      that redraw sorts the list in place (TrackerData.ShowHistory); those
      sorts are left out here, so the list is the one the edits alone give. */
  method EditingSession(data: TrackerData, created: Entry, edited: Entry)
    requires forall e :: e in data.entries ==> e.id != created.id
    requires edited.id == created.id
    modifies data
    ensures data.entries == old(data.entries)
  {
    ghost var before := data.entries;
    data.Create(created);
    data.Update(created.id, edited);
    assert data.entries == [edited] + before;
    data.Delete(created.id);
    DeleteUndoesCreate(before, edited);
  }
}
