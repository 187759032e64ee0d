/** The server's `entries` table and the request handlers around it: the
    POST validation, the PUT field selection, and the table as a class that
    holds its rows in insertion order with the next AUTO_INCREMENT id. */
module Store {
  import opened Wrappers
  import opened Calendar
  import opened Entries
  import opened EntryList

  /** A JSON value in a request body. `Other` stands for arrays and objects. */
  datatype Value = Null | Bool(b: bool) | Num(n: real) | Str(s: string) | Other

  /** JavaScript truthiness. JSON numbers are never NaN. */
  predicate Truthy(v: Value) {
    match v
    case Null => false
    case Bool(b) => b
    case Num(n) => n != 0.0
    case Str(s) => s != ""
    case Other => true
  }

  /** A parsed JSON body: a key that is absent reads as undefined, which
      behaves as null everywhere the create handler looks. */
  type Body = map<string, Value>

  function Get(body: Body, key: string): Value {
    if key in body then body[key] else Null
  }

  const InvalidBody: string := "INVALID_BODY"
  const NoFields: string := "NO_FIELDS"
  const WriteFailed: string := "DB_WRITE_FAILED"
  const UpdateFailed: string := "DB_UPDATE_FAILED"
  const ReadFailed: string := "DB_READ_FAILED"

  /** The length a VARCHAR(255) column holds. */
  const VarcharLimit: int := 255

  /** What the columns accept: a string within the length for
      `pillar` and `task`, a number for the two DOUBLE columns, a string or
      NULL for `description`, and a `YYYY-MM-DD` string for `date`. */
  function AsVarchar(v: Value): Option<string> {
    if v.Str? && |v.s| <= VarcharLimit then Some(v.s) else None
  }

  function AsDouble(v: Value): Option<real> {
    if v.Num? then Some(v.n) else None
  }

  function AsText(v: Value): Option<Option<string>> {
    match v
    case Null => Some(None)
    case Str(s) => Some(Some(s))
    case _ => None
  }

  function AsDate(v: Value): Option<Date> {
    if v.Str? then ParseDateText(v.s) else None
  }

  /** Whether the value `v` fits the column `key` (any other key names no column). */
  predicate Fits(key: string, v: Value) {
    if key == "pillar" || key == "task" then v.Str? && |v.s| <= VarcharLimit
    else if key == "description" then v.Null? || v.Str?
    else if key == "timeSaved" || key == "moneySaved" then v.Num?
    else if key == "date" then v.Str? && ParseDateText(v.s).Some?
    else true
  }

  /** A valid date written as `YYYY-MM-DD` fits the DATE column and is stored as that date. */
  lemma DateColumnRoundTrip(d: Date)
    requires ValidDate(d)
    ensures Fits("date", Str(DateText(d))) && AsDate(Str(DateText(d))) == Some(d)
  {
    DateTextRoundTrip(d);
  }

  /** The INSERT goes through when the three required text values and the
      defaulted `description` and `moneySaved` fit their columns. */
  predicate FitsColumns(body: Body) {
    Fits("pillar", Get(body, "pillar")) && Fits("task", Get(body, "task")) && Fits("date", Get(body, "date")) &&
    (!Truthy(Get(body, "description")) || Fits("description", Get(body, "description"))) &&
    (!Truthy(Get(body, "moneySaved")) || Fits("moneySaved", Get(body, "moneySaved")))
  }

  /** The POST guard: `pillar`, `task` and `date` truthy and `timeSaved` a number. */
  predicate ValidCreate(body: Body) {
    Truthy(Get(body, "pillar")) && Truthy(Get(body, "task")) && Truthy(Get(body, "date")) && Get(body, "timeSaved").Num?
  }

  /** The row the POST handler inserts under `id`: INVALID_BODY when the
      guard fails, DB_WRITE_FAILED when a value does not fit its column, and
      otherwise the body's values with `description || ''` and `moneySaved || 0`. */
  function NewRow(body: Body, id: int): (r: Result<Entry, string>)
    ensures r.Err? ==> r.error == InvalidBody || r.error == WriteFailed
    ensures r.Err? && r.error == InvalidBody <==> !ValidCreate(body)
    ensures r.Ok? <==> ValidCreate(body) && FitsColumns(body)
    ensures r.Ok? ==> r.value.id == id && r.value.timeSaved == Get(body, "timeSaved").n
    ensures r.Ok? ==> Get(body, "pillar") == Str(r.value.pillar) && Get(body, "task") == Str(r.value.task)
    ensures r.Ok? ==> Get(body, "date").Str? && ParseDateText(Get(body, "date").s) == Some(r.value.date)
    ensures r.Ok? ==> r.value.description.Some? &&
                      if Truthy(Get(body, "description")) then Get(body, "description") == Str(r.value.description.value)
                      else r.value.description.value == ""
    ensures r.Ok? ==> r.value.moneySaved.Some? &&
                      if Truthy(Get(body, "moneySaved")) then Get(body, "moneySaved") == Num(r.value.moneySaved.value)
                      else r.value.moneySaved.value == 0.0
  {
    if !ValidCreate(body) then Err(InvalidBody)
    else
      var description := if Truthy(Get(body, "description")) then Get(body, "description") else Str("");
      var money := if Truthy(Get(body, "moneySaved")) then Get(body, "moneySaved") else Num(0.0);
      var pillar, task, date := AsVarchar(Get(body, "pillar")), AsVarchar(Get(body, "task")), AsDate(Get(body, "date"));
      if pillar.None? || task.None? || date.None? || !description.Str? || !money.Num? then Err(WriteFailed)
      else Ok(Entry(id, pillar.value, task.value, Some(description.s), Get(body, "timeSaved").n, Some(money.n), date.value))
  }

  /** The six columns a PUT may set, in the order they are looked for. */
  const Fields: seq<string> := ["pillar", "task", "description", "timeSaved", "moneySaved", "date"]

  /** The fields of `names` that the body has as own keys, order kept. */
  function Present(names: seq<string>, body: Body): (r: seq<string>)
    ensures |r| <= |names|
    ensures forall f :: f in r <==> f in names && f in body
  {
    if names == [] then []
    else
      var last := names[|names| - 1];
      assert names == names[..|names| - 1] + [last];
      Present(names[..|names| - 1], body) + (if last in body then [last] else [])
  }

  lemma PresentStep(names: seq<string>, i: int, body: Body)
    requires 0 <= i < |names|
    ensures Present(names[..i + 1], body) == Present(names[..i], body) + (if names[i] in body then [names[i]] else [])
  {
    assert names[..i + 1][..i] == names[..i];
  }

  /** A body with none of the six fields selects nothing, and only then. */
  lemma PresentEmpty(body: Body)
    ensures Present(Fields, body) == [] <==> forall i :: 0 <= i < |Fields| ==> Fields[i] !in body
  {
    if Present(Fields, body) != [] {
      assert Present(Fields, body)[0] in Present(Fields, body);
    }
  }

  /** The `forEach` of the PUT handler: one `key = ?` clause and one value
      for each field the body has. */
  method SelectFields(body: Body) returns (updates: seq<string>, values: seq<Value>)
    ensures |updates| == |values| == |Present(Fields, body)|
    ensures forall i :: 0 <= i < |updates| ==>
      updates[i] == Present(Fields, body)[i] + " = ?" && values[i] == body[Present(Fields, body)[i]]
  {
    updates, values := SelectFrom(Fields, body);
  }

  /** `updates` and `values` hold one clause and one value for each selected field. */
  predicate Clauses(selected: seq<string>, body: Body, updates: seq<string>, values: seq<Value>) {
    |updates| == |values| == |selected| &&
    forall j :: 0 <= j < |selected| ==>
      selected[j] in body && updates[j] == selected[j] + " = ?" && values[j] == body[selected[j]]
  }

  lemma ClausesStep(selected: seq<string>, body: Body, updates: seq<string>, values: seq<Value>, key: string)
    requires Clauses(selected, body, updates, values) && key in body
    ensures Clauses(selected + [key], body, updates + [key + " = ?"], values + [body[key]])
  {
  }

  /** The loop of the `forEach`, over any list of field names. */
  method SelectFrom(names: seq<string>, body: Body) returns (updates: seq<string>, values: seq<Value>)
    ensures |updates| == |values| == |Present(names, body)|
    ensures forall i :: 0 <= i < |updates| ==>
      updates[i] == Present(names, body)[i] + " = ?" && values[i] == body[Present(names, body)[i]]
  {
    updates, values := [], [];
    ghost var selected: seq<string> := [];
    var i := 0;
    while i < |names|
      invariant 0 <= i <= |names|
      invariant selected == Present(names[..i], body)
      invariant Clauses(selected, body, updates, values)
    {
      var key := names[i];
      PresentStep(names, i, body);
      if key in body {
        ClausesStep(selected, body, updates, values, key);
        updates := updates + [key + " = ?"];
        values := values + [body[key]];
        selected := selected + [key];
      }
      i := i + 1;
    }
    assert names[..|names|] == names;
  }

  /** One `key = ?` assignment, or None when the value does not fit the column. */
  function Assign(row: Entry, key: string, v: Value): (r: Option<Entry>)
    ensures r.Some? ==> r.value.id == row.id
  {
    if key == "pillar" then (if AsVarchar(v).Some? then Some(row.(pillar := AsVarchar(v).value)) else None)
    else if key == "task" then (if AsVarchar(v).Some? then Some(row.(task := AsVarchar(v).value)) else None)
    else if key == "description" then (if AsText(v).Some? then Some(row.(description := AsText(v).value)) else None)
    else if key == "timeSaved" then (if AsDouble(v).Some? then Some(row.(timeSaved := AsDouble(v).value)) else None)
    else if key == "moneySaved" then (if AsDouble(v).Some? then Some(row.(moneySaved := Some(AsDouble(v).value))) else None)
    else if key == "date" then (if AsDate(v).Some? then Some(row.(date := AsDate(v).value)) else None)
    else Some(row)
  }

  /** The SET clause: the assignments in order, failing as a whole if one fails. */
  function ApplySet(row: Entry, keys: seq<string>, values: seq<Value>): (r: Option<Entry>)
    requires |keys| == |values|
    ensures r.Some? ==> r.value.id == row.id
    decreases |keys|
  {
    if keys == [] then Some(row)
    else
      match Assign(row, keys[0], values[0])
      case None => None
      case Some(next) => ApplySet(next, keys[1..], values[1..])
  }

  /** The row a PUT body makes of `row`. */
  function Patched(row: Entry, body: Body): Option<Entry> {
    var keys := Present(Fields, body);
    ApplySet(row, keys, seq(|keys|, i requires 0 <= i < |keys| => body[keys[i]]))
  }

  /** Column `key` of `r` holds what the assignment `key = v` writes. */
  predicate Holds(r: Entry, key: string, v: Value) {
    if key == "pillar" then v == Str(r.pillar)
    else if key == "task" then v == Str(r.task)
    else if key == "description" then AsText(v) == Some(r.description)
    else if key == "timeSaved" then v == Num(r.timeSaved)
    else if key == "moneySaved" then r.moneySaved.Some? && v == Num(r.moneySaved.value)
    else if key == "date" then AsDate(v) == Some(r.date)
    else true
  }

  /** Column `key` is the same in `a` and `b`. */
  predicate SameColumn(a: Entry, b: Entry, key: string) {
    if key == "pillar" then a.pillar == b.pillar
    else if key == "task" then a.task == b.task
    else if key == "description" then a.description == b.description
    else if key == "timeSaved" then a.timeSaved == b.timeSaved
    else if key == "moneySaved" then a.moneySaved == b.moneySaved
    else if key == "date" then a.date == b.date
    else true
  }

  /** One assignment writes its own column and leaves every other one alone. */
  lemma AssignWrites(row: Entry, key: string, v: Value)
    requires Assign(row, key, v).Some?
    ensures Holds(Assign(row, key, v).value, key, v)
    ensures forall f :: f != key ==> SameColumn(Assign(row, key, v).value, row, f)
  {
  }

  /** A PUT changes exactly the fields the body names, each to the body's
      value, and never the id. */
  lemma PatchedFields(row: Entry, body: Body)
    requires Patched(row, body).Some?
    ensures var r := Patched(row, body).value;
      r.id == row.id &&
      (forall f :: f in Fields && f in body ==> Holds(r, f, body[f])) &&
      (forall f :: f !in body ==> SameColumn(r, row, f))
  {
    var keys := Present(Fields, body);
    var values := seq(|keys|, i requires 0 <= i < |keys| => body[keys[i]]);
    FieldsDistinct();
    PresentDistinct(Fields, body);
    assert forall i, j :: 0 <= i < j < |keys| ==> keys[i] != keys[j];
    ApplySetFields(row, keys, values);
    var r := Patched(row, body).value;
    forall f | f in Fields && f in body ensures Holds(r, f, body[f]) {
      var i :| 0 <= i < |keys| && keys[i] == f;
    }
  }

  /** An assignment fails exactly when the value does not fit the column. */
  lemma AssignFails(row: Entry, key: string, v: Value)
    ensures Assign(row, key, v).Some? <==> Fits(key, v)
  {
  }

  /** The SET clause goes through exactly when every value fits its column,
      whatever the row held before. */
  lemma {:induction false} ApplySetSucceeds(row: Entry, keys: seq<string>, values: seq<Value>)
    requires |keys| == |values|
    ensures ApplySet(row, keys, values).Some? <==> forall i :: 0 <= i < |keys| ==> Fits(keys[i], values[i])
    decreases |keys|
  {
    if keys != [] {
      AssignFails(row, keys[0], values[0]);
      if Assign(row, keys[0], values[0]).Some? {
        ApplySetSucceeds(Assign(row, keys[0], values[0]).value, keys[1..], values[1..]);
        assert forall i :: 1 <= i < |keys| ==> keys[1..][i - 1] == keys[i] && values[1..][i - 1] == values[i];
      }
    }
  }

  /** A PUT fails with DB_UPDATE_FAILED exactly when some field the body
      names holds a value its column does not take. */
  lemma PatchedSucceeds(row: Entry, body: Body)
    ensures Patched(row, body).Some? <==> forall f :: f in Fields && f in body ==> Fits(f, body[f])
  {
    var keys := Present(Fields, body);
    var values := seq(|keys|, i requires 0 <= i < |keys| => body[keys[i]]);
    ApplySetSucceeds(row, keys, values);
    if forall i :: 0 <= i < |keys| ==> Fits(keys[i], values[i]) {
      forall f | f in Fields && f in body ensures Fits(f, body[f]) {
        var i :| 0 <= i < |keys| && keys[i] == f;
      }
    }
  }

  lemma FieldsDistinct()
    ensures forall i, j :: 0 <= i < j < |Fields| ==> Fields[i] != Fields[j]
  {
    assert Fields[0][0] == 'p' && Fields[1][0] == 't' && Fields[2][0] == 'd';
    assert Fields[3][0] == 't' && Fields[4][0] == 'm' && Fields[5][0] == 'd';
    assert |Fields[1]| != |Fields[3]| && |Fields[2]| != |Fields[5]|;
  }

  /** Each of the six names occurs at most once among the selected keys. */
  lemma {:induction false} PresentDistinct(names: seq<string>, body: Body)
    requires forall i, j :: 0 <= i < j < |names| ==> names[i] != names[j]
    ensures forall i, j :: 0 <= i < j < |Present(names, body)| ==> Present(names, body)[i] != Present(names, body)[j]
  {
    if names != [] {
      var init := names[..|names| - 1];
      PresentDistinct(init, body);
      var last := names[|names| - 1];
      assert names == init + [last];
      assert last !in init;
      assert last !in Present(init, body);
    }
  }

  /** What a SET clause over distinct keys leaves in each column. */
  lemma {:induction false} ApplySetFields(row: Entry, keys: seq<string>, values: seq<Value>)
    requires |keys| == |values|
    requires forall i, j :: 0 <= i < j < |keys| ==> keys[i] != keys[j]
    requires ApplySet(row, keys, values).Some?
    ensures var r := ApplySet(row, keys, values).value;
      (forall i :: 0 <= i < |keys| ==> Holds(r, keys[i], values[i])) &&
      (forall f :: f !in keys ==> SameColumn(r, row, f))
    decreases |keys|
  {
    if keys != [] {
      var next := Assign(row, keys[0], values[0]).value;
      var r := ApplySet(row, keys, values).value;
      assert r == ApplySet(next, keys[1..], values[1..]).value;
      AssignWrites(row, keys[0], values[0]);
      ApplySetFields(next, keys[1..], values[1..]);
      assert keys[0] !in keys[1..];
      ColumnKept(r, next, keys[0], values[0]);
      forall i | 1 <= i < |keys| ensures Holds(r, keys[i], values[i]) {
        assert keys[i] == keys[1..][i - 1] && values[i] == values[1..][i - 1];
      }
      forall f | f !in keys ensures SameColumn(r, row, f) {
        assert f !in keys[1..] && f != keys[0];
        SameColumnTransitive(r, next, row, f);
      }
    }
  }

  lemma ColumnKept(r: Entry, next: Entry, key: string, v: Value)
    requires SameColumn(r, next, key) && Holds(next, key, v)
    ensures Holds(r, key, v)
  {
  }

  lemma SameColumnTransitive(a: Entry, b: Entry, c: Entry, key: string)
    requires SameColumn(a, b, key) && SameColumn(b, c, key)
    ensures SameColumn(a, c, key)
  {
  }

  /** `ORDER BY date DESC, id DESC`: `a` may be listed before `b`. */
  predicate ListedBefore(a: Entry, b: Entry) {
    Before(b.date, a.date) || (a.date == b.date && b.id <= a.id)
  }

  predicate ListOrder(s: seq<Entry>) {
    forall i, j :: 0 <= i < j < |s| ==> ListedBefore(s[i], s[j])
  }

  lemma ListedBeforeTotal(a: Entry, b: Entry)
    ensures ListedBefore(a, b) || ListedBefore(b, a)
  {
  }

  lemma ListedBeforeTransitive(a: Entry, b: Entry, c: Entry)
    requires ListedBefore(a, b) && ListedBefore(b, c)
    ensures ListedBefore(a, c)
  {
  }

  /** Puts `x` in front of the first row it may be listed before. */
  function InsertListed(x: Entry, s: seq<Entry>): (r: seq<Entry>)
    requires ListOrder(s)
    ensures multiset(r) == multiset(s) + multiset{x}
    ensures forall e :: e in r <==> e in s || e == x
    ensures ListOrder(r)
  {
    if s == [] then [x]
    else if ListedBefore(x, s[0]) then
      forall j | 0 <= j < |s| ensures ListedBefore(x, s[j]) {
        if j > 0 {
          ListedBeforeTransitive(x, s[0], s[j]);
        }
      }
      PrependListed(x, s);
      [x] + s
    else
      ListedBeforeTotal(x, s[0]);
      var rest := InsertListed(x, s[1..]);
      assert s == [s[0]] + s[1..];
      forall k | 0 <= k < |rest| ensures ListedBefore(s[0], rest[k]) {
        if rest[k] != x {
          assert rest[k] in rest;
          assert rest[k] in s[1..];
          var m :| 0 <= m < |s[1..]| && s[1..][m] == rest[k];
          assert s[m + 1] == rest[k];
        }
      }
      PrependListed(s[0], rest);
      [s[0]] + rest
  }

  /** A row listed before every row of an ordered list can go in front of it. */
  lemma PrependListed(x: Entry, s: seq<Entry>)
    requires ListOrder(s)
    requires forall j :: 0 <= j < |s| ==> ListedBefore(x, s[j])
    ensures ListOrder([x] + s)
  {
    var t := [x] + s;
    forall i, j | 0 <= i < j < |t| ensures ListedBefore(t[i], t[j]) {
      assert t[j] == s[j - 1];
      if i > 0 {
        assert t[i] == s[i - 1];
      }
    }
  }

  /** The rows in the order the list query returns them. */
  function SortListed(s: seq<Entry>): (r: seq<Entry>)
    ensures multiset(r) == multiset(s)
    ensures ListOrder(r)
  {
    if s == [] then []
    else
      assert s == s[..|s| - 1] + [s[|s| - 1]];
      InsertListed(s[|s| - 1], SortListed(s[..|s| - 1]))
  }

  predicate DistinctIds(s: seq<Entry>) {
    forall i, j :: 0 <= i < j < |s| ==> s[i].id != s[j].id
  }

  lemma {:induction false} InsertDistinct(x: Entry, s: seq<Entry>)
    requires ListOrder(s) && DistinctIds(s)
    requires forall e :: e in s ==> e.id != x.id
    ensures DistinctIds(InsertListed(x, s))
  {
    if s != [] && !ListedBefore(x, s[0]) {
      ListedBeforeTotal(x, s[0]);
      assert forall e :: e in s[1..] ==> e in s;
      InsertDistinct(x, s[1..]);
      var rest := InsertListed(x, s[1..]);
      assert forall k :: 1 <= k < |s| ==> s[k] == s[1..][k - 1];
      assert forall e :: e in rest ==> e.id != s[0].id;
    }
  }

  lemma {:induction false} SortDistinct(s: seq<Entry>)
    requires DistinctIds(s)
    ensures DistinctIds(SortListed(s))
  {
    if s != [] {
      var init, last := s[..|s| - 1], s[|s| - 1];
      SortDistinct(init);
      var sorted := SortListed(init);
      assert forall e :: e in sorted ==> e in multiset(init);
      InsertDistinct(last, sorted);
    }
  }

  lemma {:induction false} FilterIncreasing(s: seq<Entry>, pillar: string, since: Option<Date>)
    requires IncreasingIds(s)
    ensures IncreasingIds(Filter(s, pillar, since))
  {
    if s != [] {
      var init, last := s[..|s| - 1], s[|s| - 1];
      assert IncreasingIds(init);
      FilterIncreasing(init, pillar, since);
      var kept := Filter(init, pillar, since);
      if Matches(last, pillar, since) {
        forall i | 0 <= i < |kept| ensures kept[i].id < last.id {
          assert kept[i] in kept;
          var j :| 0 <= j < |init| && init[j] == kept[i];
        }
        AppendIncreasing(kept, last);
      }
    }
  }

  /** Rows with different ids are listed in one order only. */
  lemma ListOrderStrict(s: seq<Entry>)
    requires ListOrder(s)
    requires DistinctIds(s)
    ensures forall i, j :: 0 <= i < j < |s| ==>
      Before(s[j].date, s[i].date) || (s[i].date == s[j].date && s[j].id < s[i].id)
  {
  }

  /** The WHERE clause: `pillar = ?` when a pillar is given, `date >= ?` when a date is. */
  predicate Matches(e: Entry, pillar: string, since: Option<Date>) {
    (pillar == "" || e.pillar == pillar) && (since.None? || !Before(e.date, since.value))
  }

  function Filter(s: seq<Entry>, pillar: string, since: Option<Date>): (r: seq<Entry>)
    ensures forall e :: e in r <==> e in s && Matches(e, pillar, since)
  {
    if s == [] then []
    else
      var last := s[|s| - 1];
      assert s == s[..|s| - 1] + [last];
      Filter(s[..|s| - 1], pillar, since) + (if Matches(last, pillar, since) then [last] else [])
  }

  /** Filtering a joined list filters each part in place, so the rows kept
      stay in the order they had. */
  lemma {:induction false} FilterAppend(a: seq<Entry>, b: seq<Entry>, pillar: string, since: Option<Date>)
    ensures Filter(a + b, pillar, since) == Filter(a, pillar, since) + Filter(b, pillar, since)
  {
    if b == [] {
      assert a + b == a;
    } else {
      var b' := b[..|b| - 1];
      assert (a + b)[..|a + b| - 1] == a + b' && (a + b)[|a + b| - 1] == b[|b| - 1];
      FilterLast(a + b, pillar, since);
      FilterLast(b, pillar, since);
      FilterAppend(a, b', pillar, since);
    }
  }

  /** A matching row is kept as many times as the table holds it, and no other row is. */
  lemma {:induction false} FilterCount(s: seq<Entry>, pillar: string, since: Option<Date>)
    ensures forall e :: multiset(Filter(s, pillar, since))[e] == if Matches(e, pillar, since) then multiset(s)[e] else 0
  {
    if s != [] {
      var s' := s[..|s| - 1];
      assert s == s' + [s[|s| - 1]];
      FilterLast(s, pillar, since);
      FilterCount(s', pillar, since);
    }
  }

  lemma FilterLast(s: seq<Entry>, pillar: string, since: Option<Date>)
    requires s != []
    ensures Filter(s, pillar, since) ==
      Filter(s[..|s| - 1], pillar, since) + (if Matches(s[|s| - 1], pillar, since) then [s[|s| - 1]] else [])
  {
  }

  /** `GET /api/entries?pillar=…&since=…`: the rows the filters keep, newest
      date first and the larger id first within a date. An empty parameter
      is no filter; a `since` that is not a date is a failed read. */
  function ListRows(rows: seq<Entry>, pillar: string, since: string): (r: Result<seq<Entry>, string>)
    ensures r.Err? <==> since != "" && ParseDateText(since).None?
    ensures r.Err? ==> r.error == ReadFailed
    ensures r.Ok? ==> ListOrder(r.value)
    ensures r.Ok? ==> var sinceDate := if since == "" then None else ParseDateText(since);
      forall e :: e in r.value <==> e in rows && Matches(e, pillar, sinceDate)
    ensures r.Ok? ==> var sinceDate := if since == "" then None else ParseDateText(since);
      multiset(r.value) == multiset(Filter(rows, pillar, sinceDate))
  {
    if since != "" && ParseDateText(since).None? then Err(ReadFailed)
    else
      var sinceDate := if since == "" then None else ParseDateText(since);
      var kept := Filter(rows, pillar, sinceDate);
      var listed := SortListed(kept);
      assert forall e :: e in listed <==> e in multiset(kept);
      Ok(listed)
  }

  /** `GET /api/summary`: the sums of the two columns over all rows. */
  function Summary(rows: seq<Entry>): (r: (real, real))
    ensures rows == [] ==> r == (0.0, 0.0)
  {
    (Total(rows, Time), Total(rows, Money))
  }

  /** Listing without filters gives every row once, so its totals are the summary. */
  lemma UnfilteredListIsSummary(rows: seq<Entry>)
    ensures ListRows(rows, "", "").Ok?
    ensures multiset(ListRows(rows, "", "").value) == multiset(rows)
    ensures Summary(ListRows(rows, "", "").value) == Summary(rows)
  {
    var listed := ListRows(rows, "", "").value;
    FilterNothing(rows);
    TotalPermutation(listed, rows, Time);
    TotalPermutation(listed, rows, Money);
  }

  lemma {:induction false} FilterNothing(s: seq<Entry>)
    ensures Filter(s, "", None) == s
  {
    if s != [] {
      FilterNothing(s[..|s| - 1]);
      assert s == s[..|s| - 1] + [s[|s| - 1]];
    }
  }

  /** Ids that grow along the rows, as AUTO_INCREMENT hands them out. */
  predicate IncreasingIds(s: seq<Entry>) {
    forall i, j :: 0 <= i < j < |s| ==> s[i].id < s[j].id
  }

  /** Deleting keeps the survivors in order, so their ids still grow. */
  lemma {:induction false} WithoutIdIncreasing(s: seq<Entry>, id: int)
    requires IncreasingIds(s)
    ensures IncreasingIds(WithoutId(s, id))
  {
    if s != [] {
      var init, last := s[..|s| - 1], s[|s| - 1];
      assert IncreasingIds(init);
      WithoutIdIncreasing(init, id);
      var kept := WithoutId(init, id);
      if last.id != id {
        forall i | 0 <= i < |kept| ensures kept[i].id < last.id {
          assert kept[i] in kept;
          var j :| 0 <= j < |init| && init[j] == kept[i];
        }
        AppendIncreasing(kept, last);
      }
    }
  }

  lemma AppendIncreasing(s: seq<Entry>, x: Entry)
    requires IncreasingIds(s)
    requires forall i :: 0 <= i < |s| ==> s[i].id < x.id
    ensures IncreasingIds(s + [x])
  {
    var t := s + [x];
    forall i, j | 0 <= i < j < |t| ensures t[i].id < t[j].id {
      assert t[i] == s[i];
    }
  }

  /** Every row left after a delete was a row before it, and none has the id. */
  lemma WithoutIdKeepsRows(s: seq<Entry>, id: int)
    ensures forall i :: 0 <= i < |WithoutId(s, id)| ==> WithoutId(s, id)[i] in s && WithoutId(s, id)[i].id != id
  {
  }

  lemma WithoutIdLength(s: seq<Entry>, id: int)
    requires s != []
    ensures |WithoutId(s, id)| == |WithoutId(s[..|s| - 1], id)| + (if s[|s| - 1].id != id then 1 else 0)
  {
  }

  /** With increasing ids, deleting the id of one row removes exactly that row. */
  lemma {:induction false} WithoutIdRemovesOne(s: seq<Entry>, id: int, k: int)
    requires IncreasingIds(s)
    requires 0 <= k < |s| && s[k].id == id
    ensures |WithoutId(s, id)| == |s| - 1
  {
    WithoutIdLength(s, id);
    if k == |s| - 1 {
      RemovesLast(s, id);
    } else {
      assert s[k].id < s[|s| - 1].id;
      IncreasingInit(s);
      assert s[..|s| - 1][k] == s[k];
      WithoutIdRemovesOne(s[..|s| - 1], id, k);
    }
  }

  /** When the last row has the id, no earlier row has it. */
  lemma RemovesLast(s: seq<Entry>, id: int)
    requires IncreasingIds(s) && s != [] && s[|s| - 1].id == id
    ensures WithoutId(s[..|s| - 1], id) == s[..|s| - 1]
  {
    var init := s[..|s| - 1];
    forall i | 0 <= i < |init| ensures init[i].id != id {
      assert init[i] == s[i];
    }
    WithoutAbsentId(init, id);
  }

  lemma IncreasingInit(s: seq<Entry>)
    requires IncreasingIds(s) && s != []
    ensures IncreasingIds(s[..|s| - 1])
  {
    var init := s[..|s| - 1];
    forall i, j | 0 <= i < j < |init| ensures init[i].id < init[j].id {
      assert init[i] == s[i] && init[j] == s[j];
    }
  }

  /** Every row has a positive id below the next one, ids grow in insertion
      order, and the NOT NULL columns hold values. */
  predicate Table(rows: seq<Entry>, nextId: int) {
    IncreasingIds(rows) && 0 < nextId &&
    forall i :: 0 <= i < |rows| ==> 0 < rows[i].id < nextId && rows[i].moneySaved.Some? && ValidDate(rows[i].date)
  }

  /** Replacing a row by one with the same id and filled NOT NULL columns keeps the table valid. */
  lemma ReplaceKeepsTable(rows: seq<Entry>, nextId: int, k: int, x: Entry)
    requires Table(rows, nextId) && 0 <= k < |rows|
    requires x.id == rows[k].id && x.moneySaved.Some? && ValidDate(x.date)
    ensures Table(rows[k := x], nextId)
  {
    var next := rows[k := x];
    forall i, j | 0 <= i < j < |next| ensures next[i].id < next[j].id {
      assert next[i].id == rows[i].id && next[j].id == rows[j].id;
    }
  }

  /** Deleting rows keeps the table valid. */
  lemma DeleteKeepsTable(rows: seq<Entry>, nextId: int, id: int)
    requires Table(rows, nextId)
    ensures Table(WithoutId(rows, id), nextId)
  {
    WithoutIdIncreasing(rows, id);
    WithoutIdKeepsRows(rows, id);
    var kept := WithoutId(rows, id);
    forall i | 0 <= i < |kept|
      ensures 0 < kept[i].id < nextId && kept[i].moneySaved.Some? && ValidDate(kept[i].date)
    {
      var j :| 0 <= j < |rows| && rows[j] == kept[i];
    }
  }

  /** The `entries` table. */
  class EntryStore {
    var rows: seq<Entry>
    var nextId: int

    /** Every row has a positive id below the next one, ids grow in
        insertion order, and the NOT NULL columns hold values. */
    predicate Valid()
      reads this
    {
      Table(rows, nextId)
    }

    constructor ()
      ensures Valid() && rows == [] && nextId == 1
    {
      rows := [];
      nextId := 1;
    }

    /** `POST /api/entries`: the inserted row, with an id larger than every earlier one. */
    method Create(body: Body) returns (r: Result<Entry, string>)
      requires Valid()
      modifies this
      ensures Valid()
      ensures r == NewRow(body, old(nextId))
      ensures r.Ok? ==> rows == old(rows) + [r.value] && nextId == old(nextId) + 1
      ensures r.Ok? ==> forall i :: 0 <= i < |old(rows)| ==> old(rows)[i].id < r.value.id
      ensures r.Err? ==> rows == old(rows) && nextId == old(nextId)
    {
      r := NewRow(body, nextId);
      if r.Ok? {
        rows := rows + [r.value];
        nextId := nextId + 1;
      }
    }

    /** `PUT /api/entries/:id`: NO_FIELDS when the body names none of the six
        fields; no row (and no change) for an unknown id; DB_UPDATE_FAILED when
        a value does not fit its column; otherwise the row with only the named
        fields changed. */
    method Update(id: int, body: Body) returns (r: Result<Option<Entry>, string>)
      requires Valid()
      modifies this
      ensures Valid() && nextId == old(nextId)
      ensures r == Err(NoFields) <==> Present(Fields, body) == []
      ensures r.Err? ==> r.error == NoFields || r.error == UpdateFailed
      ensures Present(Fields, body) != [] && FindIndex(old(rows), id) >= 0 ==>
        r == (if Patched(old(rows)[FindIndex(old(rows), id)], body).Some?
              then Ok(Patched(old(rows)[FindIndex(old(rows), id)], body))
              else Err(UpdateFailed))
      ensures (forall i :: 0 <= i < |old(rows)| ==> old(rows)[i].id != id) && Present(Fields, body) != [] ==> r == Ok(None)
      ensures r.Ok? && r.value.Some? ==> var k := FindIndex(old(rows), id);
        k >= 0 && Patched(old(rows)[k], body) == r.value && rows == old(rows)[k := r.value.value]
      ensures !(r.Ok? && r.value.Some?) ==> rows == old(rows)
    {
      var updates, values := SelectFields(body);
      if |updates| == 0 {
        return Err(NoFields);
      }
      var k := FindIndex(rows, id);
      if k == -1 {
        return Ok(None);
      }
      var keys := Present(Fields, body);
      assert values == seq(|keys|, i requires 0 <= i < |keys| => body[keys[i]]);
      var patched := ApplySet(rows[k], keys, values);
      if patched.None? {
        return Err(UpdateFailed);
      }
      PatchedKeepsValid(rows[k], body);
      ReplaceKeepsTable(rows, nextId, k, patched.value);
      rows := rows[k := patched.value];
      r := Ok(Some(patched.value));
    }

    /** `DELETE /api/entries/:id`: `deleted` exactly when a row had the id; none has it afterwards. */
    method Delete(id: int) returns (deleted: bool)
      requires Valid()
      modifies this
      ensures Valid() && nextId == old(nextId)
      ensures deleted <==> exists i :: 0 <= i < |old(rows)| && old(rows)[i].id == id
      ensures rows == WithoutId(old(rows), id)
      ensures forall i :: 0 <= i < |rows| ==> rows[i].id != id
      ensures deleted ==> |rows| == |old(rows)| - 1
    {
      deleted := FindIndex(rows, id) != -1;
      if deleted {
        WithoutIdRemovesOne(rows, id, FindIndex(rows, id));
      }
      DeleteKeepsTable(rows, nextId, id);
      WithoutIdKeepsRows(rows, id);
      rows := WithoutId(rows, id);
    }

    /** `DELETE /api/entries`: no rows; the AUTO_INCREMENT counter is not reset. */
    method Clear()
      requires Valid()
      modifies this
      ensures Valid() && rows == [] && nextId == old(nextId)
    {
      rows := [];
    }

    /** `GET /api/entries`. */
    method List(pillar: string, since: string) returns (r: Result<seq<Entry>, string>)
      requires Valid()
      ensures r == ListRows(rows, pillar, since)
      ensures r.Ok? ==> forall i, j :: 0 <= i < j < |r.value| ==>
        Before(r.value[j].date, r.value[i].date) || (r.value[i].date == r.value[j].date && r.value[j].id < r.value[i].id)
    {
      r := ListRows(rows, pillar, since);
      if r.Ok? {
        var sinceDate := if since == "" then None else ParseDateText(since);
        FilterIncreasing(rows, pillar, sinceDate);
        SortDistinct(Filter(rows, pillar, sinceDate));
        ListOrderStrict(r.value);
      }
    }

    /** `GET /api/summary`. */
    method GetSummary() returns (timeTotal: real, moneyTotal: real)
      ensures (timeTotal, moneyTotal) == Summary(rows)
      ensures rows == [] ==> timeTotal == 0.0 && moneyTotal == 0.0
    {
      timeTotal, moneyTotal := Total(rows, Time), Total(rows, Money);
    }
  }

  /** A patched row of a valid table keeps the row's id and fits its columns. */
  lemma PatchedKeepsValid(row: Entry, body: Body)
    requires row.moneySaved.Some? && ValidDate(row.date)
    requires Patched(row, body).Some?
    ensures var r := Patched(row, body).value; r.id == row.id && r.moneySaved.Some? && ValidDate(r.date)
  {
    PatchedFields(row, body);
    var r := Patched(row, body).value;
    assert Fields[4] == "moneySaved" && Fields[5] == "date";
    if "moneySaved" in body {
      assert Holds(r, "moneySaved", body["moneySaved"]);
    } else {
      assert SameColumn(r, row, "moneySaved");
    }
    if "date" in body {
      assert Holds(r, "date", body["date"]);
      assert AsDate(body["date"]) == Some(r.date);
    } else {
      assert SameColumn(r, row, "date");
    }
  }

  /** Creating adds the new row's amounts to the summary; clearing takes it back to zero. */
  lemma SummaryAfterCreate(rows: seq<Entry>, row: Entry)
    ensures Summary(rows + [row]) == (Summary(rows).0 + row.timeSaved, Summary(rows).1 + row.moneySaved.GetOr(0.0))
  {
    TotalAppend(rows, [row], Time);
    TotalAppend(rows, [row], Money);
    assert [row][..0] == [];
  }

  /** Updating a row moves the summary by the difference between the old and the new row. */
  lemma SummaryAfterUpdate(rows: seq<Entry>, id: int, updated: Entry)
    requires FindIndex(rows, id) >= 0
    ensures var old_ := rows[FindIndex(rows, id)];
      Summary(ReplaceById(rows, id, updated)).0 == Summary(rows).0 - old_.timeSaved + updated.timeSaved
    ensures var old_ := rows[FindIndex(rows, id)];
      Summary(ReplaceById(rows, id, updated)).1 ==
      Summary(rows).1 - old_.moneySaved.GetOr(0.0) + updated.moneySaved.GetOr(0.0)
  {
    ReplaceByIdTotal(rows, id, updated, Time);
    ReplaceByIdTotal(rows, id, updated, Money);
  }

  /** The create-then-delete round trip against a fresh table: the first
      create of a body that passes the guard and fits the columns gets id 1
      and makes the summary that body's amounts (moneySaved 0 when it is
      falsy); deleting that id reports true, a second delete reports false,
      and the summary is back to zero. */
  method Session(body: Body)
    returns (id: int, createdTime: real, createdMoney: real, deleted: bool, deletedAgain: bool, time: real, money: real)
    requires ValidCreate(body) && FitsColumns(body)
    ensures id == 1
    ensures createdTime == Get(body, "timeSaved").n
    ensures Truthy(Get(body, "moneySaved")) ==> Get(body, "moneySaved") == Num(createdMoney)
    ensures !Truthy(Get(body, "moneySaved")) ==> createdMoney == 0.0
    ensures deleted && !deletedAgain
    ensures time == 0.0 && money == 0.0
  {
    var store := new EntryStore();
    var created := store.Create(body);
    id := created.value.id;
    createdTime, createdMoney := store.GetSummary();
    SummaryAfterCreate([], created.value);
    deleted := store.Delete(id);
    deletedAgain := store.Delete(id);
    time, money := store.GetSummary();
  }
}
