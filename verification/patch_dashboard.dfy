/** The patch-management dashboard (dash/patch_dashboard.py): loads every item
    of a DynamoDB table page by page, offers sentinel-first option lists
    for three columns, filters the rows by the selections and a creation-date
    range, and shows distinct counts of the filtered rows. A DataFrame is a
    sequence of items; a missing or unparseable cell is `None`; creation
    dates are integer seconds, so a calendar day is a block of 86400 of them. */
module PatchDashboard {
  import opened Collections
  import opened Text

  const AllAccounts := "Todos"
  const AllValues := "Todas"
  const SecondsPerDay := 86400

  datatype PatchItem = PatchItem(
    instanceId: Option<string>,
    accountId: Option<string>,
    plataformaName: Option<string>,
    plataformVersion: Option<string>,
    creationDate: Option<int>)

  /** The string columns the dashboard reads. */
  datatype Field = InstanceIdField | AccountIdField | PlataformaNameField | PlataformVersionField

  function Get(item: PatchItem, f: Field): Option<string> {
    match f
    case InstanceIdField => item.instanceId
    case AccountIdField => item.accountId
    case PlataformaNameField => item.plataformaName
    case PlataformVersionField => item.plataformVersion
  }

  function Column(rows: seq<PatchItem>, f: Field): seq<Option<string>> {
    seq(|rows|, k requires 0 <= k < |rows| => Get(rows[k], f))
  }

  // ---------------------------------------------------------------------
  // Loading: `load_dynamo_data`

  /** One `scan` response. */
  datatype ScanPage = ScanPage(items: Option<seq<PatchItem>>, lastEvaluatedKey: Option<string>)

  /** The items of the pages in page order; a page without `Items` adds none. */
  function ScannedItems(pages: seq<ScanPage>): seq<PatchItem> {
    if pages == [] then [] else ScannedItems(pages[..|pages| - 1]) + pages[|pages| - 1].items.GetOr([])
  }

  lemma {:induction false} ScannedItemsAppend(a: seq<ScanPage>, b: seq<ScanPage>)
    ensures ScannedItems(a + b) == ScannedItems(a) + ScannedItems(b)
    decreases |b|
  {
    if b == [] {
      assert a + b == a;
    } else {
      var ab := a + b;
      assert ab[..|ab| - 1] == a + b[..|b| - 1];
      ScannedItemsAppend(a, b[..|b| - 1]);
    }
  }

  /** An item is loaded exactly when some page carries it. */
  lemma {:induction false} ScannedItemsMembers(pages: seq<ScanPage>, x: PatchItem)
    ensures x in ScannedItems(pages) <==> exists k :: 0 <= k < |pages| && x in pages[k].items.GetOr([])
  {
    if pages != [] {
      var init := pages[..|pages| - 1];
      ScannedItemsMembers(init, x);
      if x in ScannedItems(init) {
        var k :| 0 <= k < |init| && x in init[k].items.GetOr([]);
        assert pages[k] == init[k];
      }
      if exists k :: 0 <= k < |pages| && x in pages[k].items.GetOr([]) {
        var k :| 0 <= k < |pages| && x in pages[k].items.GetOr([]);
        if k < |pages| - 1 {
          assert init[k] == pages[k];
        }
      }
    }
  }

  /** `load_dynamo_data`: `pages[k]` is the response to the (k+1)-th scan.
      The first scan has no start key; each further scan starts at the
      previous page's `LastEvaluatedKey`; scanning stops at the first page
      without one (the table's scan does end), and the data is the items of
      the pages read, in order. */
  method LoadDynamoData(pages: seq<ScanPage>) returns (data: seq<PatchItem>, startKeys: seq<string>)
    requires exists k :: 0 <= k < |pages| && pages[k].lastEvaluatedKey.None?
    ensures |startKeys| < |pages|
    ensures pages[|startKeys|].lastEvaluatedKey.None?
    ensures forall k :: 0 <= k < |startKeys| ==> pages[k].lastEvaluatedKey == Some(startKeys[k])
    ensures data == ScannedItems(pages[..|startKeys| + 1])
  {
    var response := pages[0];
    data := response.items.GetOr([]);
    startKeys := [];
    assert pages[..1] == [pages[0]];
    while response.lastEvaluatedKey.Some?
      invariant |startKeys| < |pages| && response == pages[|startKeys|]
      invariant forall k :: 0 <= k < |startKeys| ==> pages[k].lastEvaluatedKey == Some(startKeys[k])
      invariant data == ScannedItems(pages[..|startKeys| + 1])
      decreases |pages| - |startKeys|
    {
      var calls := |startKeys| + 1;
      assert forall k :: 0 <= k < calls ==> pages[k].lastEvaluatedKey.Some?;
      startKeys := startKeys + [response.lastEvaluatedKey.value];
      response := pages[calls];
      assert pages[..calls + 1][..calls] == pages[..calls];
      data := data + response.items.GetOr([]);
    }
  }

  // ---------------------------------------------------------------------
  // Option lists and distinct counts

  /** The non-null values of a column (`dropna()`). */
  function Present(column: seq<Option<string>>): (r: seq<string>)
    ensures forall x :: x in r <==> Some(x) in column
    ensures |r| <= |column|
  {
    if column == [] then []
    else
      assert column == [column[0]] + column[1..];
      (if column[0].Some? then [column[0].value] else []) + Present(column[1..])
  }

  /** `[sentinel] + sorted(col.dropna().unique())`. */
  function OptionList(sentinel: string, column: seq<Option<string>>): (r: seq<string>)
    ensures |r| >= 1 && r[0] == sentinel
    ensures StrictlyAscending(r[1..])
    ensures forall x :: x in r[1..] <==> Some(x) in column
  {
    var values := SortedDistinct(Present(column));
    assert ([sentinel] + values)[1..] == values;
    [sentinel] + values
  }

  /** The distinct non-null values of a column. */
  function ValueSet(column: seq<Option<string>>): set<string> {
    set k | 0 <= k < |column| && column[k].Some? :: column[k].value
  }

  lemma {:induction false} DistinctListingSize(s: seq<string>)
    requires NoDuplicates(s)
    ensures |(set x | x in s)| == |s|
  {
    if s != [] {
      var rest := s[1..];
      assert NoDuplicates(rest) by {
        forall i, j | 0 <= i < j < |rest|
          ensures rest[i] != rest[j]
        {
          assert rest[i] == s[i + 1] && rest[j] == s[j + 1];
        }
      }
      DistinctListingSize(rest);
      assert s[0] !in rest by {
        forall j | 0 <= j < |rest|
          ensures rest[j] != s[0]
        {
          assert rest[j] == s[j + 1];
        }
      }
      assert s == [s[0]] + rest;
      assert (set x | x in s) == {s[0]} + (set x | x in rest);
    }
  }

  /** `col.nunique()`: how many distinct non-null values the column holds. */
  function DistinctCount(column: seq<Option<string>>): (n: nat)
    ensures n == |ValueSet(column)|
    ensures n <= |column|
  {
    var values := SortedDistinct(Present(column));
    AscendingHasNoDuplicates(values);
    DistinctListingSize(values);
    assert (set x | x in values) == ValueSet(column) by {
      forall x
        ensures x in values <==> x in ValueSet(column)
      {
        if x in ValueSet(column) {
          var k :| 0 <= k < |column| && column[k].Some? && column[k].value == x;
          assert Some(x) in column;
        }
      }
    }
    |values|
  }

  /** An option list offers the sentinel and then each distinct value once. */
  lemma OptionListSize(sentinel: string, column: seq<Option<string>>)
    ensures |OptionList(sentinel, column)| == 1 + DistinctCount(column)
  {
    var values := SortedDistinct(Present(column));
    assert OptionList(sentinel, column) == [sentinel] + values;
  }

  /** The three header metrics. */
  datatype HeaderMetrics = HeaderMetrics(instances: nat, accounts: nat, platforms: nat)

  function Metrics(filtered: seq<PatchItem>): (m: HeaderMetrics)
    ensures m.instances == |ValueSet(Column(filtered, InstanceIdField))|
    ensures m.accounts == |ValueSet(Column(filtered, AccountIdField))|
    ensures m.platforms == |ValueSet(Column(filtered, PlataformaNameField))|
    ensures m.instances <= |filtered| && m.accounts <= |filtered| && m.platforms <= |filtered|
  {
    HeaderMetrics(DistinctCount(Column(filtered, InstanceIdField)),
                  DistinctCount(Column(filtered, AccountIdField)),
                  DistinctCount(Column(filtered, PlataformaNameField)))
  }

  // ---------------------------------------------------------------------
  // Filtering

  /** The two `date_input` values, as day numbers. */
  datatype DateRange = DateRange(startDay: int, endDay: int)

  /** The sidebar's choices; `dates` is absent when there is no CreationDate column. */
  datatype Selection = Selection(account: string, plataforma: string, version: string, dates: Option<DateRange>)

  /** The calendar day of an instant (`.date()`); the divisor is positive,
      so this rounds down for instants before the epoch too. */
  function Day(t: int): int {
    t / SecondsPerDay
  }

  /** `pd.to_datetime(d)` of a date: its first instant, midnight. */
  function Midnight(day: int): int {
    day * SecondsPerDay
  }

  /** One equality step of the chain: the sentinel keeps every row, another
      value keeps the rows whose cell equals it (a null cell never does). */
  function EqualityStep(f: Field, sentinel: string, selected: string): PatchItem -> bool {
    (row: PatchItem) => selected == sentinel || Get(row, f) == Some(selected)
  }

  function CellEquals(f: Field, selected: string): PatchItem -> bool {
    (row: PatchItem) => Get(row, f) == Some(selected)
  }

  /** `if selected != sentinel: df = df[df[col] == selected]`. */
  function ApplyEquality(rows: seq<PatchItem>, f: Field, sentinel: string, selected: string): seq<PatchItem> {
    if selected != sentinel then Filter(rows, CellEquals(f, selected)) else rows
  }

  /** The date condition as line 76 writes it: `start <= CreationDate <= end`
      with both ends at midnight, so the last day counts only its first instant. */
  function InDaysAsWritten(range: DateRange): PatchItem -> bool {
    (row: PatchItem) => row.creationDate.Some? && Midnight(range.startDay) <= row.creationDate.value <= Midnight(range.endDay)
  }

  /** The date condition as intended: created on a day from the start date to
      the end date, both included. Unparseable dates (NaT) never match. */
  function InDays(range: DateRange): PatchItem -> bool {
    (row: PatchItem) => row.creationDate.Some? && range.startDay <= Day(row.creationDate.value) <= range.endDay
  }

  /** The filter chain with a given date condition. */
  function FilterChain(rows: seq<PatchItem>, sel: Selection, inRange: DateRange -> PatchItem -> bool): seq<PatchItem> {
    var byAccount := ApplyEquality(rows, AccountIdField, AllAccounts, sel.account);
    var byPlataforma := ApplyEquality(byAccount, PlataformaNameField, AllValues, sel.plataforma);
    var byVersion := ApplyEquality(byPlataforma, PlataformVersionField, AllValues, sel.version);
    if sel.dates.Some? then Filter(byVersion, inRange(sel.dates.value)) else byVersion
  }

  /** Lines 68-76 as written: the rows that meet every selection, with the
      end date counting only its first instant, in their loaded order. */
  function FilterRowsAsWritten(rows: seq<PatchItem>, sel: Selection): (r: seq<PatchItem>)
    ensures r == Filter(rows, ChainMask(sel, InDaysAsWritten))
    ensures IsSubsequence(r, rows)
  {
    FilterChainIsOneMask(rows, sel, InDaysAsWritten);
    FilterIsSubsequence(rows, ChainMask(sel, InDaysAsWritten));
    FilterChain(rows, sel, InDaysAsWritten)
  }

  /** Lines 68-76 with the end date covering its whole day: exactly the rows
      that meet every selection, in their loaded order. */
  function FilterRows(rows: seq<PatchItem>, sel: Selection): (r: seq<PatchItem>)
    ensures r == Filter(rows, Matches(sel))
    ensures IsSubsequence(r, rows)
    ensures forall row :: row in r <==> row in rows && Matches(sel)(row)
  {
    FilterChainIsOneMask(rows, sel, InDays);
    FilterIsSubsequence(rows, Matches(sel));
    FilterChain(rows, sel, InDays)
  }

  /** The date step of the chain: no date column keeps every row. */
  function DateStep(dates: Option<DateRange>, inRange: DateRange -> PatchItem -> bool): PatchItem -> bool {
    (row: PatchItem) => dates.None? || inRange(dates.value)(row)
  }

  /** The one condition a row must meet to survive the chain. */
  function ChainMask(sel: Selection, inRange: DateRange -> PatchItem -> bool): PatchItem -> bool {
    And(And(And(EqualityStep(AccountIdField, AllAccounts, sel.account),
                EqualityStep(PlataformaNameField, AllValues, sel.plataforma)),
            EqualityStep(PlataformVersionField, AllValues, sel.version)),
        DateStep(sel.dates, inRange))
  }

  /** What a row must meet to be shown: each equality selection (unless it
      is the sentinel) and, when there is a date column, the day range. */
  function Matches(sel: Selection): PatchItem -> bool {
    ChainMask(sel, InDays)
  }

  lemma ApplyEqualityIsFilter(rows: seq<PatchItem>, f: Field, sentinel: string, selected: string)
    ensures ApplyEquality(rows, f, sentinel, selected) == Filter(rows, EqualityStep(f, sentinel, selected))
  {
    if selected == sentinel {
      FilterKeepsAll(rows, EqualityStep(f, sentinel, selected));
    } else {
      FilterCongruent(rows, CellEquals(f, selected), EqualityStep(f, sentinel, selected));
    }
  }

  /** An equality step after a mask is the conjunction of the two. */
  lemma EqualityAfterMask(rows: seq<PatchItem>, m: PatchItem -> bool, f: Field, sentinel: string, selected: string)
    ensures ApplyEquality(Filter(rows, m), f, sentinel, selected) == Filter(rows, And(m, EqualityStep(f, sentinel, selected)))
  {
    ApplyEqualityIsFilter(Filter(rows, m), f, sentinel, selected);
    FilterFilter(rows, m, EqualityStep(f, sentinel, selected));
  }

  /** The chain of masks is one mask, whatever the date condition. */
  lemma FilterChainIsOneMask(rows: seq<PatchItem>, sel: Selection, inRange: DateRange -> PatchItem -> bool)
    ensures FilterChain(rows, sel, inRange) == Filter(rows, ChainMask(sel, inRange))
  {
    var a := EqualityStep(AccountIdField, AllAccounts, sel.account);
    var p := EqualityStep(PlataformaNameField, AllValues, sel.plataforma);
    var v := EqualityStep(PlataformVersionField, AllValues, sel.version);
    var d := DateStep(sel.dates, inRange);
    ApplyEqualityIsFilter(rows, AccountIdField, AllAccounts, sel.account);
    EqualityAfterMask(rows, a, PlataformaNameField, AllValues, sel.plataforma);
    EqualityAfterMask(rows, And(a, p), PlataformVersionField, AllValues, sel.version);
    var byVersion := Filter(rows, And(And(a, p), v));
    if sel.dates.None? {
      FilterKeepsAll(byVersion, d);
    } else {
      FilterCongruent(byVersion, inRange(sel.dates.value), d);
    }
    FilterFilter(rows, And(And(a, p), v), d);
  }

  /** With every sentinel chosen and no date column, nothing is filtered out. */
  lemma SentinelsKeepEveryRow(rows: seq<PatchItem>)
    ensures FilterRows(rows, Selection(AllAccounts, AllValues, AllValues, None)) == rows
  {
  }

  /** A column whose non-null cells all hold `v` has at most one distinct value. */
  lemma UniformColumnCount(column: seq<Option<string>>, v: string)
    requires forall k :: 0 <= k < |column| && column[k].Some? ==> column[k].value == v
    ensures |ValueSet(column)| <= 1
  {
    assert ValueSet(column) <= {v};
    if ValueSet(column) != {} {
      var x :| x in ValueSet(column);
      assert ValueSet(column) == {v};
    }
  }

  /** Choosing an account leaves at most one account in the header count,
      whatever the date condition of the chain (as written or corrected). */
  lemma SelectedAccountCountsOne(rows: seq<PatchItem>, sel: Selection, inRange: DateRange -> PatchItem -> bool)
    requires sel.account != AllAccounts
    ensures Metrics(FilterChain(rows, sel, inRange)).accounts <= 1
  {
    FilterChainIsOneMask(rows, sel, inRange);
    var filtered := FilterChain(rows, sel, inRange);
    var column := Column(filtered, AccountIdField);
    forall k | 0 <= k < |column| && column[k].Some?
      ensures column[k].value == sel.account
    {
      assert filtered[k] in filtered;
      assert EqualityStep(AccountIdField, AllAccounts, sel.account)(filtered[k]);
    }
    UniformColumnCount(column, sel.account);
  }

  // ---------------------------------------------------------------------
  // Default date range

  /** The parsed creation dates. */
  function CreationDates(rows: seq<PatchItem>): (r: seq<int>)
    ensures forall t :: t in r <==> exists row :: row in rows && row.creationDate == Some(t)
  {
    if rows == [] then []
    else
      assert rows == [rows[0]] + rows[1..];
      (if rows[0].creationDate.Some? then [rows[0].creationDate.value] else []) + CreationDates(rows[1..])
  }

  function Min(s: seq<int>): (m: int)
    requires s != []
    ensures m in s && forall x :: x in s ==> m <= x
  {
    if |s| == 1 then s[0]
    else
      var m := Min(s[1..]);
      assert s == [s[0]] + s[1..];
      if s[0] <= m then s[0] else m
  }

  function Max(s: seq<int>): (m: int)
    requires s != []
    ensures m in s && forall x :: x in s ==> x <= m
  {
    if |s| == 1 then s[0]
    else
      var m := Max(s[1..]);
      assert s == [s[0]] + s[1..];
      if s[0] >= m then s[0] else m
  }

  lemma DayMonotone(s: int, t: int)
    requires s <= t
    ensures Day(s) <= Day(t)
  {
    var qs, qt := s / SecondsPerDay, t / SecondsPerDay;
    assert s == qs * SecondsPerDay + s % SecondsPerDay;
    assert t == qt * SecondsPerDay + t % SecondsPerDay;
  }

  predicate IsDated(row: PatchItem) {
    row.creationDate.Some?
  }

  /** The dates the two inputs start at: the days of the earliest and the
      latest creation date, so that the range spans the day of every dated
      row and both ends are days of some row; no range without dates. */
  function DefaultDates(rows: seq<PatchItem>): (r: Option<DateRange>)
    ensures r.None? <==> forall row :: row in rows ==> !IsDated(row)
    ensures r.Some? ==> forall row :: row in rows && IsDated(row) ==>
      r.value.startDay <= Day(row.creationDate.value) <= r.value.endDay
    ensures r.Some? ==> exists row :: row in rows && IsDated(row) && Day(row.creationDate.value) == r.value.startDay
    ensures r.Some? ==> exists row :: row in rows && IsDated(row) && Day(row.creationDate.value) == r.value.endDay
  {
    var dates := CreationDates(rows);
    if dates == [] then
      assert forall row :: row in rows ==> !IsDated(row);
      None
    else
      var lo, hi := Min(dates), Max(dates);
      assert forall row :: row in rows && IsDated(row) ==> Day(lo) <= Day(row.creationDate.value) <= Day(hi) by {
        forall row | row in rows && IsDated(row)
          ensures Day(lo) <= Day(row.creationDate.value) <= Day(hi)
        {
          var t := row.creationDate.value;
          assert t in dates;
          DayMonotone(lo, t);
          DayMonotone(t, hi);
        }
      }
      Some(DateRange(Day(lo), Day(hi)))
  }

  /** With every sentinel chosen, only the date step can drop a row. */
  lemma SentinelsLeaveDateStep(dates: Option<DateRange>, row: PatchItem)
    ensures Matches(Selection(AllAccounts, AllValues, AllValues, dates))(row) <==> dates.None? || InDays(dates.value)(row)
  {
    var sel := Selection(AllAccounts, AllValues, AllValues, dates);
    var a := EqualityStep(AccountIdField, AllAccounts, sel.account);
    var p := EqualityStep(PlataformaNameField, AllValues, sel.plataforma);
    var v := EqualityStep(PlataformVersionField, AllValues, sel.version);
    assert a(row) && p(row) && v(row);
    assert And(a, p)(row);
    assert And(And(a, p), v)(row);
    assert Matches(sel)(row) == DateStep(dates, InDays)(row);
  }

  /** What the page shows before the operator touches the sidebar: every
      sentinel, the default dates, and so, when there is a date range, every
      dated row and nothing else. */
  function DefaultSelection(rows: seq<PatchItem>): (s: Selection)
    ensures s.account == AllAccounts && s.plataforma == AllValues && s.version == AllValues
    ensures s.dates == DefaultDates(rows)
    ensures forall row :: row in rows ==> (Matches(s)(row) <==> s.dates.None? || IsDated(row))
  {
    var s := Selection(AllAccounts, AllValues, AllValues, DefaultDates(rows));
    assert forall row :: row in rows ==> (Matches(s)(row) <==> s.dates.None? || IsDated(row)) by {
      forall row | row in rows
        ensures Matches(s)(row) <==> s.dates.None? || IsDated(row)
      {
        SentinelsLeaveDateStep(s.dates, row);
        if s.dates.Some? && IsDated(row) {
          assert s.dates.value.startDay <= Day(row.creationDate.value) <= s.dates.value.endDay;
        }
      }
    }
    s
  }

  /** Corrected: the default view hides no dated row (it hides only rows
      whose date could not be parsed). */
  lemma DefaultSelectionKeepsDatedRows(rows: seq<PatchItem>)
    ensures FilterRows(rows, DefaultSelection(rows)) == if DefaultDates(rows).Some? then Filter(rows, IsDated) else rows
  {
    var sel := DefaultSelection(rows);
    if sel.dates.Some? {
      FilterCongruent(rows, Matches(sel), IsDated);
    } else {
      FilterKeepsAll(rows, Matches(sel));
    }
  }

  /** As written, a row created on the end date after midnight is dropped
      although the end date was chosen to include it. */
  lemma AsWrittenDropsRestOfEndDay(range: DateRange, row: PatchItem)
    requires range.startDay <= range.endDay
    requires row.creationDate.Some? && Day(row.creationDate.value) == range.endDay
    requires row.creationDate.value % SecondsPerDay != 0
    ensures InDays(range)(row)
    ensures !InDaysAsWritten(range)(row)
  {
    var t := row.creationDate.value;
    assert t == Day(t) * SecondsPerDay + t % SecondsPerDay;
  }

  /** As written, the default view of a table holding one item created at
      01:00 on day 1 is empty. */
  lemma AsWrittenDefaultHidesLatestRow()
    ensures var rows := [PatchItem(Some("i-1"), Some("111111111111"), Some("Linux"), Some("2"), Some(SecondsPerDay + 3600))];
      FilterRowsAsWritten(rows, DefaultSelection(rows)) == [] && FilterRows(rows, DefaultSelection(rows)) == rows
  {
    var rows := [PatchItem(Some("i-1"), Some("111111111111"), Some("Linux"), Some("2"), Some(SecondsPerDay + 3600))];
    assert rows[1..] == [];
    assert CreationDates(rows[1..]) == [];
    var dates := CreationDates(rows);
    assert dates == [SecondsPerDay + 3600];
    assert DefaultDates(rows) == Some(DateRange(1, 1));
    AsWrittenDropsRestOfEndDay(DateRange(1, 1), rows[0]);
    DefaultSelectionKeepsDatedRows(rows);
    FilterKeepsAll(rows, IsDated);
  }
}
