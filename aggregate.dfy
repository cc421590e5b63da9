/** The range aggregation of the recompute effect (App.tsx): the imported
    records whose date lies between the two bounds, compared as strings and
    both included, are summed field by field. */
module Aggregate {
  import opened Types
  import opened Strings

  /** The accumulator of the `reduce`: the four figures a record adds to. */
  datatype Totals = Totals(
    ordersCount: real,
    netValueWithVat: real,
    shippingCost: real,
    totalValueWithShipping: real)

  const NoTotals: Totals := Totals(0.0, 0.0, 0.0, 0.0)

  /** One step of the `reduce`: the record's orders, net value, shipping
      cost and total value added to the running sums. */
  function AddRecord(acc: Totals, r: DailyRecord): Totals {
    Totals(
      acc.ordersCount + r.orders as real,
      acc.netValueWithVat + r.netValue,
      acc.shippingCost + r.shippingCost,
      acc.totalValueWithShipping + r.totalValue)
  }

  function Plus(a: Totals, b: Totals): Totals {
    Totals(
      a.ordersCount + b.ordersCount,
      a.netValueWithVat + b.netValueWithVat,
      a.shippingCost + b.shippingCost,
      a.totalValueWithShipping + b.totalValueWithShipping)
  }

  /** `records.reduce(AddRecord, NoTotals)`: a left fold, so the last record
      is added last. */
  function SumRecords(rs: seq<DailyRecord>): Totals {
    if rs == [] then NoTotals else AddRecord(SumRecords(rs[..|rs| - 1]), rs[|rs| - 1])
  }

  /** `record.date >= start && record.date <= end`. */
  predicate InRange(r: DailyRecord, start: string, end: string) {
    LexLe(start, r.date) && LexLe(r.date, end)
  }

  /** `records.filter(...)` with the range test: exactly the records in the
      range, in their order. */
  function FilterRange(rs: seq<DailyRecord>, start: string, end: string): (out: seq<DailyRecord>)
    ensures |out| <= |rs|
    ensures forall r <- out :: r in rs && InRange(r, start, end)
    ensures forall r <- rs :: InRange(r, start, end) ==> r in out
  {
    if rs == [] then []
    else (if InRange(rs[0], start, end) then [rs[0]] else []) + FilterRange(rs[1..], start, end)
  }

  /** The four sums the effect merges into the inputs. */
  function RangeTotals(rs: seq<DailyRecord>, start: string, end: string): Totals {
    SumRecords(FilterRange(rs, start, end))
  }

  /** Records ordered by their date strings. */
  ghost predicate SortedByDate(rs: seq<DailyRecord>) {
    forall i, j :: 0 <= i < j < |rs| ==> LexLe(rs[i].date, rs[j].date)
  }

  /** Summing two runs of records one after the other adds their sums. */
  lemma {:induction false} SumAppend(a: seq<DailyRecord>, b: seq<DailyRecord>)
    ensures SumRecords(a + b) == Plus(SumRecords(a), SumRecords(b))
    decreases |b|
  {
    if b == [] {
      assert a + b == a;
    } else {
      var n := |b| - 1;
      assert (a + b)[..|a + b| - 1] == a + b[..n];
      SumAppend(a, b[..n]);
    }
  }

  /** Taking one record out of a sequence takes it out of its multiset. */
  lemma RemoveOne(b: seq<DailyRecord>, i: nat)
    requires i < |b|
    ensures multiset(b[..i] + b[i + 1..]) == multiset(b) - multiset{b[i]}
  {
    assert b == b[..i] + [b[i]] + b[i + 1..];
  }

  /** Adding a record to a sum of two parts adds it to the first part. */
  lemma AddToPlus(x: Totals, y: Totals, r: DailyRecord)
    ensures AddRecord(Plus(x, y), r) == Plus(AddRecord(x, r), y)
  {
  }

  /** The sums with one record taken out, plus that record, are the sums. */
  lemma SumWithout(b: seq<DailyRecord>, i: nat)
    requires i < |b|
    ensures SumRecords(b) == AddRecord(SumRecords(b[..i] + b[i + 1..]), b[i])
  {
    var front, rest := b[..i], b[i + 1..];
    var upTo := front + [b[i]];
    assert b == upTo + rest;
    assert upTo[..|upTo| - 1] == front;
    assert SumRecords(upTo) == AddRecord(SumRecords(front), b[i]);
    SumAppend(upTo, rest);
    SumAppend(front, rest);
    AddToPlus(SumRecords(front), SumRecords(rest), b[i]);
  }

  /** The sums do not depend on the order of the records: a sorted copy
      sums to the same figures. */
  lemma {:induction false} SumPermutation(a: seq<DailyRecord>, b: seq<DailyRecord>)
    requires multiset(a) == multiset(b)
    ensures SumRecords(a) == SumRecords(b)
    decreases |a|
  {
    if a == [] {
      assert |b| == |multiset(b)| == 0;
    } else {
      var n := |a| - 1;
      var x := a[n];
      assert x in multiset(b);
      var i :| 0 <= i < |b| && b[i] == x;
      var rest := b[..i] + b[i + 1..];
      RemoveOne(a, n);
      RemoveOne(b, i);
      assert a[..n] + a[n + 1..] == a[..n];
      assert multiset(a[..n]) == multiset(rest);
      SumPermutation(a[..n], rest);
      SumWithout(b, i);
      assert SumRecords(a) == AddRecord(SumRecords(a[..n]), x);
    }
  }

  /** Filtering two runs one after the other filters each. */
  lemma {:induction false} FilterAppend(a: seq<DailyRecord>, b: seq<DailyRecord>, start: string, end: string)
    ensures FilterRange(a + b, start, end) == FilterRange(a, start, end) + FilterRange(b, start, end)
  {
    if a == [] {
      assert a + b == b;
    } else {
      assert (a + b)[0] == a[0] && (a + b)[1..] == a[1..] + b;
      FilterAppend(a[1..], b, start, end);
    }
  }

  /** When every record is in the range, the filter keeps them all. */
  lemma {:induction false} FilterKeepsAll(rs: seq<DailyRecord>, start: string, end: string)
    requires forall r <- rs :: InRange(r, start, end)
    ensures FilterRange(rs, start, end) == rs
  {
    if rs != [] {
      FilterKeepsAll(rs[1..], start, end);
      assert rs == [rs[0]] + rs[1..];
    }
  }

  /** A range whose start comes after its end holds no record, so all four
      sums are 0. */
  lemma ReversedRangeIsEmpty(rs: seq<DailyRecord>, start: string, end: string)
    requires !LexLe(start, end)
    ensures FilterRange(rs, start, end) == []
    ensures RangeTotals(rs, start, end) == NoTotals
  {
    var out := FilterRange(rs, start, end);
    if out != [] {
      assert out[0] in out;
      LexLeTransitive(start, out[0].date, end);
      assert false;
    }
  }

  /** Over the range from the first to the last date of sorted records, the
      sums are the sums of every record. */
  lemma FullRangeSumsAll(rs: seq<DailyRecord>)
    requires rs != [] && SortedByDate(rs)
    ensures RangeTotals(rs, rs[0].date, rs[|rs| - 1].date) == SumRecords(rs)
  {
    forall r <- rs ensures InRange(r, rs[0].date, rs[|rs| - 1].date) {
      var i :| 0 <= i < |rs| && rs[i] == r;
      if i > 0 { assert LexLe(rs[0].date, rs[i].date); } else { LexLeReflexive(r.date); }
      if i < |rs| - 1 { assert LexLe(rs[i].date, rs[|rs| - 1].date); } else { LexLeReflexive(r.date); }
    }
    FilterKeepsAll(rs, rs[0].date, rs[|rs| - 1].date);
  }
}
