/** The calculator's state (App.tsx): the form inputs, the imported records
    and the selected date range, and the actions that change them. React's
    state hooks become the fields of one object; the effect that re-derives
    the inputs from the records is the explicit method `Recompute`, and the
    memoised metrics are `Metrics.Derive` of the inputs. */
module App {
  import opened Wrappers
  import opened Types
  import opened Strings
  import opened CsvParser
  import opened Dates
  import opened Aggregate

  datatype DateRange = DateRange(start: string, end: string)

  /** The keys of `InputState`: the `field` of `handleInputChange`. */
  datatype Field =
    | OrdersCount
    | NetValueWithVat
    | ShippingCost
    | TotalValueWithShipping
    | MarketingCost
    | DailyFixedExpenses
    | DaysCount

  function Get(s: InputState, f: Field): real {
    match f
    case OrdersCount => s.ordersCount
    case NetValueWithVat => s.netValueWithVat
    case ShippingCost => s.shippingCost
    case TotalValueWithShipping => s.totalValueWithShipping
    case MarketingCost => s.marketingCost
    case DailyFixedExpenses => s.dailyFixedExpenses
    case DaysCount => s.daysCount
  }

  /** `{ ...prev, [field]: value }`: that field becomes `value`, every other
      field keeps its value. */
  function Set(s: InputState, f: Field, v: real): (t: InputState)
    ensures Get(t, f) == v
    ensures forall g :: g != f ==> Get(t, g) == Get(s, g)
  {
    match f
    case OrdersCount => s.(ordersCount := v)
    case NetValueWithVat => s.(netValueWithVat := v)
    case ShippingCost => s.(shippingCost := v)
    case TotalValueWithShipping => s.(totalValueWithShipping := v)
    case MarketingCost => s.(marketingCost := v)
    case DailyFixedExpenses => s.(dailyFixedExpenses := v)
    case DaysCount => s.(daysCount := v)
  }

  /** Manual entry starts from zeros over one day. */
  const DefaultInputs: InputState := InputState(0.0, 0.0, 0.0, 0.0, 0.0, 0.0, 1.0)

  /** `{ ...prev, ...sums, daysCount: diffDays }`. When a bound is not a
      date the source stores NaN as the day count; here the old count is
      kept. */
  function MergeTotals(prev: InputState, t: Totals, days: Option<int>): (next: InputState)
    ensures next.marketingCost == prev.marketingCost
    ensures next.dailyFixedExpenses == prev.dailyFixedExpenses
  {
    InputState(
      t.ordersCount,
      t.netValueWithVat,
      t.shippingCost,
      t.totalValueWithShipping,
      prev.marketingCost,
      prev.dailyFixedExpenses,
      match days case Some(n) => n as real case None => prev.daysCount)
  }

  /** `records.sort(...)` by date, in place: a stable insertion sort. For
      well-formed dates the string order used here is the order of the
      source's comparator on time values (`Dates.StringOrderIsTimeOrder`). */
  method SortByDate(a: array<DailyRecord>)
    modifies a
    ensures SortedByDate(a[..])
    ensures multiset(a[..]) == old(multiset(a[..]))
  {
    var i := 0;
    while i < a.Length
      invariant 0 <= i <= a.Length
      invariant forall p, q :: 0 <= p < q < i ==> LexLe(a[p].date, a[q].date)
      invariant multiset(a[..]) == old(multiset(a[..]))
    {
      InsertLast(a, i);
      i := i + 1;
    }
  }

  /** One step of the insertion sort: `a[i]` moves down into the sorted
      prefix `a[..i]` until the record before it is not later. */
  method InsertLast(a: array<DailyRecord>, i: int)
    requires 0 <= i < a.Length
    requires forall p, q :: 0 <= p < q < i ==> LexLe(a[p].date, a[q].date)
    modifies a
    ensures forall p, q :: 0 <= p < q <= i ==> LexLe(a[p].date, a[q].date)
    ensures multiset(a[..]) == old(multiset(a[..]))
  {
    var j := i;
    while j > 0 && !LexLe(a[j - 1].date, a[j].date)
      invariant 0 <= j <= i
      invariant forall p, q :: 0 <= p < q <= i && p != j && q != j ==> LexLe(a[p].date, a[q].date)
      invariant forall q :: j < q <= i ==> LexLe(a[j].date, a[q].date)
      invariant forall p, q :: 0 <= p < j < q <= i ==> LexLe(a[p].date, a[q].date)
      invariant multiset(a[..]) == old(multiset(a[..]))
    {
      LexLeTotal(a[j - 1].date, a[j].date);
      a[j - 1], a[j] := a[j], a[j - 1];
      j := j - 1;
    }
    forall p, q | 0 <= p < q <= i
      ensures LexLe(a[p].date, a[q].date)
    {
      if q == j && p < j - 1 {
        LexLeTransitive(a[p].date, a[j - 1].date, a[j].date);
      }
    }
  }

  class AppState {
    var inputs: InputState
    var importedData: seq<DailyRecord>
    var dateRange: DateRange

    /** The imported records are kept in date order. */
    ghost predicate Valid()
      reads this
    {
      SortedByDate(importedData)
    }

    constructor ()
      ensures Valid()
      ensures inputs == DefaultInputs && importedData == [] && dateRange == DateRange("", "")
    {
      inputs := DefaultInputs;
      importedData := [];
      dateRange := DateRange("", "");
    }

    /** `handleInputChange(field)(value)`: one field of the inputs changes. */
    method HandleInputChange(field: Field, value: real)
      requires Valid()
      modifies this
      ensures Valid()
      ensures inputs == Set(old(inputs), field, value)
      ensures importedData == old(importedData) && dateRange == old(dateRange)
    {
      inputs := Set(inputs, field, value);
    }

    /** `setImportedData(records)` and `setDateRange(...)` for a non-empty
      parse: a date-sorted copy of the records, and their first and last
      dates as the range. */
    method LoadRecords(records: seq<DailyRecord>)
      requires Valid()
      requires records != []
      modifies this
      ensures Valid()
      ensures inputs == old(inputs)
      ensures multiset(importedData) == multiset(records)
      ensures |importedData| == |records|
      ensures dateRange == DateRange(importedData[0].date, importedData[|importedData| - 1].date)
    {
      var a := new DailyRecord[|records|](k requires 0 <= k < |records| => records[k]);
      assert a[..] == records;
      SortByDate(a);
      importedData := a[..];
      dateRange := DateRange(a[0].date, a[a.Length - 1].date);
    }

    /** The `onload` body of `handleFileUpload`: a non-empty parse replaces
      the records and the range; an empty one changes nothing. */
    method LoadText(text: string)
      requires Valid()
      modifies this
      ensures Valid()
      ensures inputs == old(inputs)
      ensures Loaded(old(importedData), old(dateRange), ParseCsv(text))
    {
      var records := ParseCsv(text);
      if records != [] {
        LoadRecords(records);
      }
    }

    /** The records and range after reading `parsed` over `before` and
      `range`: unchanged when nothing was parsed, otherwise a reordering of
      `parsed` spanned by the range. */
    ghost predicate Loaded(before: seq<DailyRecord>, range: DateRange, parsed: seq<DailyRecord>)
      reads this
    {
      if parsed == [] then importedData == before && dateRange == range
      else
        && multiset(importedData) == multiset(parsed)
        && importedData != []
        && dateRange == DateRange(importedData[0].date, importedData[|importedData| - 1].date)
    }

    /** `clearImport`: no records, no range, one day; every other input is
      kept, including the sums of the last import. */
    method ClearImport()
      requires Valid()
      modifies this
      ensures Valid()
      ensures importedData == [] && dateRange == DateRange("", "")
      ensures inputs == Set(old(inputs), DaysCount, 1.0)
    {
      importedData := [];
      dateRange := DateRange("", "");
      inputs := inputs.(daysCount := 1.0);
    }

    /** The "from" date picker. */
    method SetStart(start: string)
      requires Valid()
      modifies this
      ensures Valid()
      ensures dateRange == old(dateRange).(start := start)
      ensures inputs == old(inputs) && importedData == old(importedData)
    {
      dateRange := dateRange.(start := start);
    }

    /** The "to" date picker. */
    method SetEnd(end: string)
      requires Valid()
      modifies this
      ensures Valid()
      ensures dateRange == old(dateRange).(end := end)
      ensures inputs == old(inputs) && importedData == old(importedData)
    {
      dateRange := dateRange.(end := end);
    }

    /** The effect on `[importedData, dateRange]`: without records or with
      an empty bound nothing happens; otherwise the four sums over the
      records in the range and the inclusive day count replace their
      inputs, and the marketing cost and daily expense are kept. */
    method Recompute()
      requires Valid()
      modifies this
      ensures Valid()
      ensures importedData == old(importedData) && dateRange == old(dateRange)
      ensures importedData == [] || dateRange.start == "" || dateRange.end == "" ==> inputs == old(inputs)
      ensures importedData != [] && dateRange.start != "" && dateRange.end != "" ==>
        inputs == MergeTotals(old(inputs), RangeTotals(importedData, dateRange.start, dateRange.end),
                              DayCount(dateRange.start, dateRange.end))
      ensures inputs.marketingCost == old(inputs).marketingCost
      ensures inputs.dailyFixedExpenses == old(inputs).dailyFixedExpenses
    {
      if |importedData| == 0 {
        return;
      }
      var start, end := dateRange.start, dateRange.end;
      if start == "" || end == "" {
        return;
      }
      var days := DayCount(start, end);
      var sums := RangeTotals(importedData, start, end);
      inputs := MergeTotals(inputs, sums, days);
    }

    /** Reading a file and the effect its new records trigger: when the
      parse is not empty and its earliest date is not empty text, the inputs
      hold the sums of every parsed record and the day count of the whole
      span. */
    method ImportFile(text: string)
      requires Valid()
      modifies this
      ensures Valid()
      ensures Imported(old(inputs), old(importedData), old(dateRange), ParseCsv(text))
    {
      var parsed := ParseCsv(text);
      LoadText(text);
      if parsed != [] {
        Recompute();
        if importedData[0].date != "" {
          WholeImportSums(importedData, parsed);
        }
      }
    }

    /** The state after importing `parsed` over `prev`: nothing changes
      when nothing was parsed; otherwise the records are loaded and, unless
      the earliest date is empty text, the inputs hold the sums of every
      parsed record and the day count of the whole span. */
    ghost predicate Imported(prev: InputState, before: seq<DailyRecord>, range: DateRange, parsed: seq<DailyRecord>)
      reads this
    {
      && Loaded(before, range, parsed)
      && (parsed == [] ==> inputs == prev)
      && (parsed != [] && importedData[0].date != "" ==>
            inputs == MergeTotals(prev, SumRecords(parsed), DayCount(dateRange.start, dateRange.end)))
    }
  }

  /** Over records sorted by date, the range from the first date to the last
      sums every record, whichever order they were parsed in. */
  lemma WholeImportSums(data: seq<DailyRecord>, parsed: seq<DailyRecord>)
    requires SortedByDate(data) && data != [] && data[0].date != ""
    requires multiset(data) == multiset(parsed)
    ensures data[|data| - 1].date != ""
    ensures RangeTotals(data, data[0].date, data[|data| - 1].date) == SumRecords(parsed)
  {
    assert LexLe(data[0].date, data[|data| - 1].date) by {
      if |data| == 1 { LexLeReflexive(data[0].date); }
    }
    FullRangeSumsAll(data);
    SumPermutation(data, parsed);
  }
}
