// `generate_followup_report` of app/report_service.py: records grouped by the day
// part of their `date`, rows emitted day by day in ascending order, appended to
// the day's CSV file, with the column header only when the file is new.

module Report {
  import opened Wrappers
  import opened Text
  import opened Calendar
  import opened Settings

  /**
   * One record handed to the report. Every key is optional in the source's dicts:
   * `to`, `subject` and `status` default to `''`, `followup_count` to 0, and
   * `date` is read unguarded.
   */
  datatype ReportItem = ReportItem(
    to: Option<string>, subject: Option<string>, date: Option<string>,
    followupCount: Option<nat>, status: Option<string>)

  /** One written CSV line: the column header, or a data row. */
  datatype Line =
    | Header
    | Row(day: string, sentTo: string, subject: string, prevSentOn: string,
          followupText: string, number: nat, status: string)

  /** The default report path for the local date `today` (`YYYY-MM-DD`): `followup_report_<today>.csv`. */
  function ReportPath(today: string): string {
    "followup_report_" + today + ".csv"
  }

  /** The day key: the part of `date` before its first space. */
  function DayOf(date: string): (d: string)
    ensures ' ' !in d
    ensures d <= date
  {
    Before(date, ' ')
  }

  /** The template index of the report: the count clamped to the last template. */
  function TemplateIndex(count: nat): (i: nat)
    ensures i < 3
    ensures i <= count
    ensures count < 3 ==> i == count
    ensures count >= 2 ==> i == 2
  {
    if count < 2 then count else 2
  }

  /** The `Status` column: `fail` for a dry run or a failed send, `success` for a sent one. */
  function StatusText(status: string): (r: string)
    ensures status == "dry_run" || status == "failed" ==> r == "fail"
    ensures status == "sent" ==> r == "success"
    ensures status != "dry_run" && status != "failed" && status != "sent" ==> r == status
  {
    if status == "dry_run" || status == "failed" then "fail"
    else if status == "sent" then "success"
    else status
  }

  predicate Dated(item: ReportItem) {
    item.date.Some?
  }

  predicate AllDated(items: seq<ReportItem>) {
    forall i :: 0 <= i < |items| ==> Dated(items[i])
  }

  function Day(item: ReportItem): string
    requires Dated(item)
  {
    DayOf(item.date.value)
  }

  /** The data row of one record, under its day. */
  function RowOf(item: ReportItem, day: string, templates: Templates): Line
    requires Dated(item)
  {
    var count := item.followupCount.GetOr(0);
    Row(day, item.to.GetOr(""), item.subject.GetOr(""), item.date.value,
        templates[TemplateIndex(count)], count + 1, StatusText(item.status.GetOr("")))
  }

  /** The rows of one day's group, in group order. */
  function RowsOf(group: seq<ReportItem>, day: string, templates: Templates): (rows: seq<Line>)
    requires AllDated(group)
    ensures |rows| == |group|
    ensures forall i :: 0 <= i < |rows| ==> rows[i].Row? && rows[i].day == day
    decreases |group|
  {
    if group == [] then []
    else RowsOf(group[..|group| - 1], day, templates) + [RowOf(group[|group| - 1], day, templates)]
  }

  /** The days of `items`, each once, in order of first occurrence: the keys of `day_groups`. */
  function DaysOf(items: seq<ReportItem>): seq<string>
    requires AllDated(items)
    decreases |items|
  {
    if items == [] then []
    else
      var prev := DaysOf(items[..|items| - 1]);
      var d := Day(items[|items| - 1]);
      if d in prev then prev else prev + [d]
  }

  /** The records of day `d`, in input order: `day_groups[d]`. */
  function ItemsOn(items: seq<ReportItem>, d: string): (group: seq<ReportItem>)
    requires AllDated(items)
    ensures AllDated(group)
    ensures forall i :: 0 <= i < |group| ==> Day(group[i]) == d
    decreases |items|
  {
    if items == [] then []
    else
      var prev := ItemsOn(items[..|items| - 1], d);
      var x := items[|items| - 1];
      if Day(x) == d then prev + [x] else prev
  }

  /** The rows of the given days, day after day. */
  function DayRows(days: seq<string>, items: seq<ReportItem>, templates: Templates): seq<Line>
    requires AllDated(items)
    decreases |days|
  {
    if days == [] then []
    else
      var d := days[|days| - 1];
      DayRows(days[..|days| - 1], items, templates) + RowsOf(ItemsOn(items, d), d, templates)
  }

  lemma DayRowsPrefix(days: seq<string>, k: nat, items: seq<ReportItem>, templates: Templates)
    requires k < |days| && AllDated(items)
    ensures DayRows(days[..k + 1], items, templates)
         == DayRows(days[..k], items, templates) + RowsOf(ItemsOn(items, days[k]), days[k], templates)
  {
    assert days[..k + 1][..k] == days[..k];
  }

  /** `x` inserted before the first element not less than it. */
  function Insert(x: string, s: seq<string>): seq<string>
    decreases |s|
  {
    if s == [] then [x]
    else if Less(s[0], x) then [s[0]] + Insert(x, s[1..])
    else [x] + s
  }

  /** `sorted` on strings. */
  function Sort(s: seq<string>): seq<string>
    decreases |s|
  {
    if s == [] then [] else Insert(s[0], Sort(s[1..]))
  }

  predicate Ascending(s: seq<string>) {
    forall i, j :: 0 <= i < j < |s| ==> !Less(s[j], s[i])
  }

  /** Every data row of a report run, in the order written. */
  function ReportRows(items: seq<ReportItem>, templates: Templates): seq<Line>
    requires AllDated(items)
  {
    DayRows(Sort(DaysOf(items)), items, templates)
  }

  /** The rows a file holds before a run: none when it does not exist yet. */
  function Existing(files: map<string, seq<Line>>, path: string): seq<Line> {
    if path in files then files[path] else []
  }

  /** `files` after appending the report of `items` to `path`: the header first if the file is new. */
  function Appended(files: map<string, seq<Line>>, path: string, items: seq<ReportItem>, templates: Templates): map<string, seq<Line>>
    requires AllDated(items)
  {
    files[path := Existing(files, path) + (if path in files then [] else [Header]) + ReportRows(items, templates)]
  }

  /** The report files, by path: the file system as far as the report sees it. */
  class ReportFiles {
    var files: map<string, seq<Line>>

    constructor(initial: map<string, seq<Line>>)
      ensures files == initial
    {
      files := initial;
    }

    /**
     * `generate_followup_report(items)` with the default path of the date `today`.
     * A record without `date` raises before the file is opened; otherwise the file is
     * opened for append, gets the header if it did not exist, then the rows.
     */
    method GenerateFollowupReport(items: seq<ReportItem>, today: string, templates: Templates) returns (ok: bool)
      modifies this
      ensures ok <==> AllDated(items)
      ensures !ok ==> files == old(files)
      ensures ok ==> files == Appended(old(files), ReportPath(today), items, templates)
    {
      var groups, days;
      ok, groups, days := GroupByDay(items);
      if !ok {
        return;
      }
      var path := ReportPath(today);
      ghost var base := Existing(files, path) + (if path in files then [] else [Header]);
      OpenForAppend(path);
      assert files == old(files)[path := base];
      var sorted := Sort(days);
      SortMembers(days);
      WriteDays(path, sorted, groups, items, templates);
      assert files == old(files)[path := base + ReportRows(items, templates)];
    }

    /** `open(path, 'a')`, then `writeheader()` when the file did not exist before. */
    method OpenForAppend(path: string)
      modifies this
      ensures files == old(files)[path := Existing(old(files), path) + (if path in old(files) then [] else [Header])]
    {
      if path !in files {
        assert Existing(files, path) + [Header] == [Header];
        files := files[path := [Header]];
      } else {
        ghost var lines := files[path];
        assert Existing(files, path) + [] == lines;
        assert files == files[path := lines];
      }
    }

    /** The loop over `sorted(day_groups.items())`. */
    method WriteDays(path: string, sorted: seq<string>, groups: map<string, seq<ReportItem>>, items: seq<ReportItem>, templates: Templates)
      requires path in files && AllDated(items)
      requires forall d :: d in sorted ==> d in groups && groups[d] == ItemsOn(items, d)
      modifies this
      ensures files == old(files)[path := old(files)[path] + DayRows(sorted, items, templates)]
    {
      assert DayRows(sorted[..0], items, templates) == [] && old(files)[path] + [] == old(files)[path];
      assert files == old(files)[path := old(files)[path]];
      for k := 0 to |sorted|
        invariant files == old(files)[path := old(files)[path] + DayRows(sorted[..k], items, templates)]
      {
        var day := sorted[k];
        assert day in sorted;
        var group := groups[day];
        DayRowsPrefix(sorted, k, items, templates);
        ghost var prefix := old(files)[path] + DayRows(sorted[..k], items, templates);
        ghost var rows := RowsOf(group, day, templates);
        assert prefix + rows == old(files)[path] + DayRows(sorted[..k + 1], items, templates);
        WriteDay(path, day, group, templates);
        assert files == old(files)[path := prefix + rows];
      }
      assert sorted[..|sorted|] == sorted;
    }

    /** The inner loop: one `writerow` per record of the day's group. */
    method WriteDay(path: string, day: string, group: seq<ReportItem>, templates: Templates)
      requires path in files && AllDated(group)
      modifies this
      ensures files == old(files)[path := old(files)[path] + RowsOf(group, day, templates)]
    {
      assert group[..0] == [] && old(files)[path] + [] == old(files)[path];
      assert files == old(files)[path := old(files)[path] + RowsOf(group[..0], day, templates)];
      for j := 0 to |group|
        invariant files == old(files)[path := old(files)[path] + RowsOf(group[..j], day, templates)]
      {
        assert AllDated(group[..j + 1]) && group[..j + 1][..j] == group[..j];
        var count := group[j].followupCount.GetOr(0);
        var row := Row(day, group[j].to.GetOr(""), group[j].subject.GetOr(""), group[j].date.value,
                       templates[TemplateIndex(count)], count + 1, StatusText(group[j].status.GetOr("")));
        assert row == RowOf(group[j], day, templates);
        assert RowsOf(group[..j + 1], day, templates) == RowsOf(group[..j], day, templates) + [row];
        ghost var before := files;
        files := files[path := files[path] + [row]];
        assert before[path] + [row] == old(files)[path] + RowsOf(group[..j + 1], day, templates);
      }
      assert group[..|group|] == group;
    }
  }

  /** The loop that fills `day_groups`: each record appended to the list of its day. */
  method GroupByDay(items: seq<ReportItem>) returns (ok: bool, groups: map<string, seq<ReportItem>>, days: seq<string>)
    ensures ok <==> AllDated(items)
    ensures ok ==> days == DaysOf(items)
    ensures ok ==> forall d :: d in groups <==> d in days
    ensures ok ==> forall d :: d in groups ==> groups[d] == ItemsOn(items, d)
  {
    groups, days := map[], [];
    for i := 0 to |items|
      invariant AllDated(items[..i])
      invariant days == DaysOf(items[..i])
      invariant forall d :: d in groups <==> d in days
      invariant forall d :: d in groups ==> groups[d] == ItemsOn(items[..i], d)
    {
      if items[i].date.None? {
        // `thread['date']` raises KeyError
        assert !Dated(items[i]);
        return false, groups, days;
      }
      GroupStep(items, i);
      var day := DayOf(items[i].date.value);
      var group := [];
      if day in groups {
        group := groups[day];
      } else {
        ItemsOnAbsent(items[..i], day);
        days := days + [day];
      }
      groups := groups[day := group + [items[i]]];
    }
    assert items[..|items|] == items;
    ok := true;
  }

  /** One more record: its day is added if new, and it joins its day's group. */
  lemma GroupStep(items: seq<ReportItem>, i: nat)
    requires i < |items| && AllDated(items[..i]) && Dated(items[i])
    ensures AllDated(items[..i + 1])
    ensures DaysOf(items[..i + 1]) == if Day(items[i]) in DaysOf(items[..i]) then DaysOf(items[..i]) else DaysOf(items[..i]) + [Day(items[i])]
    ensures forall d :: ItemsOn(items[..i + 1], d) == ItemsOn(items[..i], d) + (if Day(items[i]) == d then [items[i]] else [])
  {
    assert items[..i + 1][..i] == items[..i];
  }

  /** A day that is not among the days of `items` has no records. */
  lemma {:induction false} ItemsOnAbsent(items: seq<ReportItem>, d: string)
    requires AllDated(items) && d !in DaysOf(items)
    ensures ItemsOn(items, d) == []
    decreases |items|
  {
    if items != [] {
      var prev := items[..|items| - 1];
      assert AllDated(prev);
      assert forall e :: e in DaysOf(prev) ==> e in DaysOf(items);
      ItemsOnAbsent(prev, d);
    }
  }

  lemma {:induction false} InsertPermutes(x: string, s: seq<string>)
    ensures multiset(Insert(x, s)) == multiset(s) + multiset{x}
    decreases |s|
  {
    if s != [] && Less(s[0], x) {
      InsertPermutes(x, s[1..]);
      assert s == [s[0]] + s[1..];
    }
  }

  lemma SortMembers(s: seq<string>)
    ensures forall x :: x in Sort(s) <==> x in s
  {
    SortPermutes(s);
    assert forall x :: x in Sort(s) <==> x in multiset(Sort(s));
  }

  /** `sorted` returns a rearrangement of its input. */
  lemma {:induction false} SortPermutes(s: seq<string>)
    ensures multiset(Sort(s)) == multiset(s)
    decreases |s|
  {
    if s != [] {
      SortPermutes(s[1..]);
      InsertPermutes(s[0], Sort(s[1..]));
      assert s == [s[0]] + s[1..];
    }
  }

  /** Neither less than the other in turn: the order is transitive on "not greater". */
  lemma NotLessTransitive(a: string, b: string, c: string)
    requires !Less(b, a) && !Less(c, b)
    ensures !Less(c, a)
  {
    LessTotal(a, b);
    LessTotal(b, c);
    if Less(c, a) {
      if a != b && b != c {
        LessTransitive(a, b, c);
        LessAsymmetric(a, c);
      } else if a == b {
        LessAsymmetric(c, b);
      } else {
        LessAsymmetric(a, b);
      }
    }
  }

  lemma InsertMembers(x: string, s: seq<string>)
    ensures forall y :: y in Insert(x, s) <==> y == x || y in s
  {
    InsertPermutes(x, s);
    assert forall y :: y in Insert(x, s) <==> y in multiset(Insert(x, s));
  }

  /** Prepending an element no greater than all others keeps a sequence ascending. */
  lemma AscendingCons(y: string, r: seq<string>)
    requires Ascending(r)
    requires forall z :: z in r ==> !Less(z, y)
    ensures Ascending([y] + r)
  {
    var t := [y] + r;
    forall i, j | 0 <= i < j < |t|
      ensures !Less(t[j], t[i])
    {
      assert t[j] == r[j - 1];
      if i == 0 {
        assert r[j - 1] in r;
      } else {
        assert t[i] == r[i - 1];
      }
    }
  }

  lemma {:induction false} InsertAscending(x: string, s: seq<string>)
    requires Ascending(s)
    ensures Ascending(Insert(x, s))
    decreases |s|
  {
    if s == [] {
    } else if Less(s[0], x) {
      var rest := Insert(x, s[1..]);
      assert Ascending(s[1..]) by {
        forall i, j | 0 <= i < j < |s[1..]|
          ensures !Less(s[1..][j], s[1..][i])
        {
          assert s[1..][j] == s[j + 1] && s[1..][i] == s[i + 1];
        }
      }
      InsertAscending(x, s[1..]);
      InsertMembers(x, s[1..]);
      LessAsymmetric(s[0], x);
      forall y | y in s[1..]
        ensures !Less(y, s[0])
      {
        var j :| 0 <= j < |s[1..]| && s[1..][j] == y;
        assert s[j + 1] == y;
      }
      AscendingCons(s[0], rest);
    } else {
      forall y | y in s
        ensures !Less(y, x)
      {
        var j :| 0 <= j < |s| && s[j] == y;
        if j > 0 {
          NotLessTransitive(x, s[0], s[j]);
        }
      }
      AscendingCons(x, s);
    }
  }

  /** `sorted` returns its input in ascending order. */
  lemma {:induction false} SortAscending(s: seq<string>)
    ensures Ascending(Sort(s))
    decreases |s|
  {
    if s != [] {
      SortAscending(s[1..]);
      InsertAscending(s[0], Sort(s[1..]));
    }
  }

  predicate Distinct(s: seq<string>) {
    forall i, j :: 0 <= i < j < |s| ==> s[i] != s[j]
  }

  /** The keys of `day_groups` are distinct and cover the day of every record. */
  lemma {:induction false} DaysOfSpec(items: seq<ReportItem>)
    requires AllDated(items)
    ensures Distinct(DaysOf(items))
    ensures forall i :: 0 <= i < |items| ==> Day(items[i]) in DaysOf(items)
    ensures forall d :: d in DaysOf(items) ==> exists i :: 0 <= i < |items| && Day(items[i]) == d
    decreases |items|
  {
    if items != [] {
      var n := |items| - 1;
      var prev := items[..n];
      assert AllDated(prev);
      DaysOfSpec(prev);
      forall i | 0 <= i < |items|
        ensures Day(items[i]) in DaysOf(items)
      {
        if i < n {
          assert items[i] == prev[i];
        }
      }
      forall d | d in DaysOf(items)
        ensures exists i :: 0 <= i < |items| && Day(items[i]) == d
      {
        if d in DaysOf(prev) {
          var i :| 0 <= i < |prev| && Day(prev[i]) == d;
          assert items[i] == prev[i];
        } else {
          assert Day(items[n]) == d;
        }
      }
    }
  }

  lemma {:induction false} InsertDistinct(x: string, s: seq<string>)
    requires Distinct(s) && x !in s
    ensures Distinct(Insert(x, s))
    decreases |s|
  {
    if s != [] && Less(s[0], x) {
      assert Distinct(s[1..]) by {
        forall i, j | 0 <= i < j < |s[1..]|
          ensures s[1..][i] != s[1..][j]
        {
          assert s[1..][i] == s[i + 1] && s[1..][j] == s[j + 1];
        }
      }
      InsertDistinct(x, s[1..]);
      InsertMembers(x, s[1..]);
      var t := [s[0]] + Insert(x, s[1..]);
      forall i, j | 0 <= i < j < |t|
        ensures t[i] != t[j]
      {
        if i == 0 {
          assert t[j] in Insert(x, s[1..]);
          if t[j] != x {
            var k :| 0 <= k < |s[1..]| && s[1..][k] == t[j];
            assert s[k + 1] == t[j];
          }
        }
      }
    } else if s != [] {
      var t := [x] + s;
      forall i, j | 0 <= i < j < |t|
        ensures t[i] != t[j]
      {
        assert t[j] == s[j - 1];
        if i > 0 {
          assert t[i] == s[i - 1];
        }
      }
    }
  }

  /** `sorted` keeps distinct elements distinct. */
  lemma {:induction false} SortDistinct(s: seq<string>)
    requires Distinct(s)
    ensures Distinct(Sort(s))
    decreases |s|
  {
    if s != [] {
      assert Distinct(s[1..]) by {
        forall i, j | 0 <= i < j < |s[1..]|
          ensures s[1..][i] != s[1..][j]
        {
          assert s[1..][i] == s[i + 1] && s[1..][j] == s[j + 1];
        }
      }
      SortDistinct(s[1..]);
      SortMembers(s[1..]);
      assert s[0] !in s[1..] by {
        forall k | 0 <= k < |s[1..]|
          ensures s[1..][k] != s[0]
        {
          assert s[1..][k] == s[k + 1];
        }
      }
      InsertDistinct(s[0], Sort(s[1..]));
    }
  }

  /** The data rows of day `d`, in the order written. */
  function RowsOfDay(rows: seq<Line>, d: string): (r: seq<Line>)
    ensures |r| <= |rows|
    decreases |rows|
  {
    if rows == [] then []
    else
      var last := rows[|rows| - 1];
      RowsOfDay(rows[..|rows| - 1], d) + (if last.Row? && last.day == d then [last] else [])
  }

  lemma {:induction false} RowsOfDayAppend(a: seq<Line>, b: seq<Line>, d: string)
    ensures RowsOfDay(a + b, d) == RowsOfDay(a, d) + RowsOfDay(b, d)
    decreases |b|
  {
    if b == [] {
      assert a + b == a;
    } else {
      assert (a + b)[..|a + b| - 1] == a + b[..|b| - 1];
      RowsOfDayAppend(a, b[..|b| - 1], d);
    }
  }

  /** A group's rows all carry the group's day. */
  lemma {:induction false} RowsOfDayOfGroup(group: seq<ReportItem>, e: string, d: string, templates: Templates)
    requires AllDated(group)
    ensures RowsOfDay(RowsOf(group, e, templates), d) == if e == d then RowsOf(group, e, templates) else []
    decreases |group|
  {
    if group != [] {
      var prev := group[..|group| - 1];
      assert AllDated(prev);
      RowsOfDayOfGroup(prev, e, d, templates);
      RowsOfDayAppend(RowsOf(prev, e, templates), [RowOf(group[|group| - 1], e, templates)], d);
      assert [RowOf(group[|group| - 1], e, templates)][..0] == [];
    }
  }

  lemma {:induction false} DayRowsOfDay(days: seq<string>, items: seq<ReportItem>, d: string, templates: Templates)
    requires AllDated(items) && Distinct(days)
    ensures RowsOfDay(DayRows(days, items, templates), d) == if d in days then RowsOf(ItemsOn(items, d), d, templates) else []
    decreases |days|
  {
    if days != [] {
      var n := |days| - 1;
      var prev := days[..n];
      var e := days[n];
      DistinctLast(days);
      DayRowsOfDay(prev, items, d, templates);
      var a := DayRows(prev, items, templates);
      var b := RowsOf(ItemsOn(items, e), e, templates);
      assert DayRows(days, items, templates) == a + b;
      RowsOfDayAppend(a, b, d);
      RowsOfDayOfGroup(ItemsOn(items, e), e, d, templates);
      if d == e {
        assert RowsOfDay(a, d) + RowsOfDay(b, d) == b;
      } else {
        assert RowsOfDay(a, d) + RowsOfDay(b, d) == RowsOfDay(a, d);
      }
    }
  }

  /** Dropping the last of distinct days leaves distinct days without it. */
  lemma DistinctLast(days: seq<string>)
    requires Distinct(days) && days != []
    ensures Distinct(days[..|days| - 1]) && days[|days| - 1] !in days[..|days| - 1]
    ensures forall d :: d in days <==> d in days[..|days| - 1] || d == days[|days| - 1]
  {
    var n := |days| - 1;
    assert days == days[..n] + [days[n]];
  }

  /** Within a day, the report lists exactly that day's records, in input order. */
  lemma ReportRowsOfDay(items: seq<ReportItem>, d: string, templates: Templates)
    requires AllDated(items)
    ensures RowsOfDay(ReportRows(items, templates), d) == RowsOf(ItemsOn(items, d), d, templates)
  {
    DaysOfSpec(items);
    SortDistinct(DaysOf(items));
    SortMembers(DaysOf(items));
    DayRowsOfDay(Sort(DaysOf(items)), items, d, templates);
    if d !in DaysOf(items) {
      ItemsOnAbsent(items, d);
    }
  }

  /** Rows whose days never decrease. */
  predicate DaysAscending(rows: seq<Line>) {
    forall i, j :: 0 <= i < j < |rows| ==> rows[i].Row? && rows[j].Row? && !Less(rows[j].day, rows[i].day)
  }

  lemma {:induction false} DayRowsDays(days: seq<string>, items: seq<ReportItem>, templates: Templates)
    requires AllDated(items)
    ensures forall r :: r in DayRows(days, items, templates) ==> r.Row? && r.day in days
    decreases |days|
  {
    if days != [] {
      var prev := days[..|days| - 1];
      DayRowsDays(prev, items, templates);
      assert forall d :: d in prev ==> d in days;
      var last := RowsOf(ItemsOn(items, days[|days| - 1]), days[|days| - 1], templates);
      assert forall r :: r in last ==> r.day == days[|days| - 1] by {
        forall r | r in last
          ensures r.day == days[|days| - 1]
        {
          var i :| 0 <= i < |last| && last[i] == r;
        }
      }
    }
  }

  lemma {:induction false} DayRowsAscending(days: seq<string>, items: seq<ReportItem>, templates: Templates)
    requires AllDated(items) && Ascending(days)
    ensures DaysAscending(DayRows(days, items, templates))
    decreases |days|
  {
    if days != [] {
      var n := |days| - 1;
      var prev := days[..n];
      assert Ascending(prev);
      DayRowsAscending(prev, items, templates);
      DayRowsDays(prev, items, templates);
      var a := DayRows(prev, items, templates);
      var b := RowsOf(ItemsOn(items, days[n]), days[n], templates);
      var t := a + b;
      forall i, j | 0 <= i < j < |t|
        ensures t[i].Row? && t[j].Row? && !Less(t[j].day, t[i].day)
      {
        if j < |a| {
          assert t[i] == a[i] && t[j] == a[j];
        } else if i >= |a| {
          assert t[i] == b[i - |a|] && t[j] == b[j - |a|];
          LessIrreflexive(days[n]);
        } else {
          assert t[i] == a[i] && a[i] in a && t[j] == b[j - |a|];
          var k :| 0 <= k < |prev| && prev[k] == a[i].day;
          assert days[k] == a[i].day;
        }
      }
    }
  }

  /** Rows are written in ascending order of their day strings. */
  lemma ReportRowsAscending(items: seq<ReportItem>, templates: Templates)
    requires AllDated(items)
    ensures DaysAscending(ReportRows(items, templates))
  {
    SortAscending(DaysOf(items));
    DayRowsAscending(Sort(DaysOf(items)), items, templates);
  }

  /** One more record of a listed day adds one row; of an unlisted day, none. */
  lemma {:induction false} DayRowsSnocItem(days: seq<string>, items: seq<ReportItem>, x: ReportItem, templates: Templates)
    requires AllDated(items) && Dated(x) && Distinct(days)
    ensures AllDated(items + [x])
    ensures |DayRows(days, items + [x], templates)| == |DayRows(days, items, templates)| + (if Day(x) in days then 1 else 0)
    decreases |days|
  {
    var all := items + [x];
    assert all[..|all| - 1] == items;
    if days != [] {
      var n := |days| - 1;
      var prev := days[..n];
      assert Distinct(prev);
      DayRowsSnocItem(prev, items, x, templates);
      assert Day(x) in days <==> Day(x) in prev || Day(x) == days[n];
      if Day(x) == days[n] {
        assert Day(x) !in prev;
      }
    }
  }

  lemma {:induction false} DayRowsCount(days: seq<string>, items: seq<ReportItem>, templates: Templates)
    requires AllDated(items) && Distinct(days)
    requires forall i :: 0 <= i < |items| ==> Day(items[i]) in days
    ensures |DayRows(days, items, templates)| == |items|
    decreases |items|
  {
    if items == [] {
      DayRowsEmpty(days, items, templates);
    } else {
      var n := |items| - 1;
      var prev := items[..n];
      assert items == prev + [items[n]];
      assert AllDated(prev);
      assert forall i :: 0 <= i < |prev| ==> prev[i] == items[i];
      DayRowsCount(days, prev, templates);
      DayRowsSnocItem(days, prev, items[n], templates);
    }
  }

  lemma {:induction false} DayRowsEmpty(days: seq<string>, items: seq<ReportItem>, templates: Templates)
    requires items == []
    ensures DayRows(days, items, templates) == []
    decreases |days|
  {
    if days != [] {
      DayRowsEmpty(days[..|days| - 1], items, templates);
    }
  }

  /** Every record yields exactly one data row. */
  lemma ReportRowsCount(items: seq<ReportItem>, templates: Templates)
    requires AllDated(items)
    ensures |ReportRows(items, templates)| == |items|
  {
    DaysOfSpec(items);
    SortDistinct(DaysOf(items));
    SortMembers(DaysOf(items));
    DayRowsCount(Sort(DaysOf(items)), items, templates);
  }

  /** `r` is the row of one of the records, under that record's day. */
  ghost predicate RowFrom(r: Line, items: seq<ReportItem>, templates: Templates)
    requires AllDated(items)
  {
    exists i :: 0 <= i < |items| && r == RowOf(items[i], Day(items[i]), templates)
  }

  lemma {:induction false} ItemsOnMembers(items: seq<ReportItem>, d: string)
    requires AllDated(items)
    ensures forall x :: x in ItemsOn(items, d) ==> x in items
    decreases |items|
  {
    if items != [] {
      var prev := items[..|items| - 1];
      assert AllDated(prev);
      ItemsOnMembers(prev, d);
      assert forall x :: x in prev ==> x in items;
    }
  }

  lemma {:induction false} RowsOfFrom(group: seq<ReportItem>, d: string, items: seq<ReportItem>, templates: Templates)
    requires AllDated(items) && AllDated(group)
    requires forall x :: x in group ==> x in items && Day(x) == d
    ensures forall r :: r in RowsOf(group, d, templates) ==> RowFrom(r, items, templates)
    decreases |group|
  {
    if group != [] {
      var n := |group| - 1;
      var prev := group[..n];
      assert AllDated(prev);
      assert forall x :: x in prev ==> x in group;
      RowsOfFrom(prev, d, items, templates);
      assert group[n] in group;
      var i :| 0 <= i < |items| && items[i] == group[n];
      assert RowOf(group[n], d, templates) == RowOf(items[i], Day(items[i]), templates);
    }
  }

  lemma {:induction false} DayRowsFrom(days: seq<string>, items: seq<ReportItem>, templates: Templates)
    requires AllDated(items)
    ensures forall r :: r in DayRows(days, items, templates) ==> RowFrom(r, items, templates)
    decreases |days|
  {
    if days != [] {
      var d := days[|days| - 1];
      DayRowsFrom(days[..|days| - 1], items, templates);
      var group := ItemsOn(items, d);
      ItemsOnMembers(items, d);
      assert forall x :: x in group ==> Day(x) == d by {
        forall x | x in group
          ensures Day(x) == d
        {
          var j :| 0 <= j < |group| && group[j] == x;
        }
      }
      RowsOfFrom(group, d, items, templates);
    }
  }

  /** Every data row of a report is the row of one of its records, under that record's day. */
  lemma ReportRowsFrom(items: seq<ReportItem>, templates: Templates)
    requires AllDated(items)
    ensures forall r :: r in ReportRows(items, templates) ==> RowFrom(r, items, templates)
  {
    DayRowsFrom(Sort(DaysOf(items)), items, templates);
  }
}
