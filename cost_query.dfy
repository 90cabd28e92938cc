/** The total-cost aggregate: every matching subscription is expanded into its
    monthly payment dates, and its price is summed over the dates inside the
    queried period. */
module CostQuery {
  import opened Wrappers
  import opened Times
  import opened Entity

  /** `t::DATE`: 00:00 UTC of the day `t` falls on. */
  function DateOf(t: Instant): (d: Instant)
    ensures d.month == t.month && d.nanos % NanosPerDay == 0
    ensures d.nanos <= t.nanos < d.nanos + NanosPerDay
  {
    Instant(t.month, t.nanos / NanosPerDay * NanosPerDay)
  }

  /** The first month whose 1st is on or after `t::DATE`: the month of `t`
      when `t` falls on the 1st, otherwise the month after. */
  function FirstBilledMonth(t: Instant): (m: Month)
    ensures !Before(FirstOf(m), DateOf(t)) && Before(FirstOf(m - 1), DateOf(t))
  {
    if t.nanos < NanosPerDay then t.month else t.month + 1
  }

  /** The last month whose 1st is on or before `t::DATE`: the month of `t`. */
  function LastBilledMonth(t: Instant): (m: Month)
    ensures !Before(DateOf(t), FirstOf(m)) && Before(DateOf(t), FirstOf(m + 1))
  {
    t.month
  }

  /** generate_series(first, last, '1 month'): first, first + 1, ..., last,
      and nothing when last is before first. */
  function Series(first: Month, last: Month): (r: seq<Month>)
    ensures |r| == if last < first then 0 else last - first + 1
    ensures forall i | 0 <= i < |r| :: r[i] == first + i
    decreases last - first
  {
    if last < first then [] else [first] + Series(first + 1, last)
  }

  /** The price charged once for every payment date within [lo, hi]: the SUM
      over one subscription's joined rows that pass the WHERE clause. */
  function Charges(price: int, dates: seq<Month>, lo: Month, hi: Month): (r: int)
    ensures 0 <= price ==> 0 <= r
  {
    if dates == [] then 0
    else (if lo <= dates[0] <= hi then price else 0) + Charges(price, dates[1..], lo, hi)
  }

  /** The last payment date of a subscription: its end date, or the end of the
      queried period when it is open-ended (COALESCE(end_date, $2::DATE)). */
  function SeriesEnd(s: Subscription, f: CostFilter): Month {
    s.endDate.GetOr(LastBilledMonth(f.dateEnd))
  }

  /** What one subscription adds to the total. */
  function RowCost(s: Subscription, f: CostFilter): int {
    Charges(s.price, Series(s.startDate, SeriesEnd(s, f)), FirstBilledMonth(f.dateStart), LastBilledMonth(f.dateEnd))
  }

  /** COALESCE(SUM(price), 0) over the subscriptions matching the filters. */
  function TotalCost(rows: seq<Subscription>, f: CostFilter): (r: int)
    ensures (forall i | 0 <= i < |rows| :: 0 <= rows[i].price) ==> 0 <= r
  {
    if rows == [] then 0
    else (if Matches(f.userId, f.serviceName, rows[0]) then RowCost(rows[0], f) else 0) + TotalCost(rows[1..], f)
  }

  /** The number of months in both [a, b] and [lo, hi]. */
  function Overlap(a: Month, b: Month, lo: Month, hi: Month): (n: nat)
    ensures n == 0 <==> b < a || hi < lo || b < lo || hi < a
  {
    var first := if a < lo then lo else a;
    var last := if b < hi then b else hi;
    if last < first then 0 else last - first + 1
  }

  /** The closed form of a subscription's charges: the price times the number
      of months its payment series shares with the period. */
  lemma {:induction false} ChargesClosedForm(price: int, a: Month, b: Month, lo: Month, hi: Month)
    ensures Charges(price, Series(a, b), lo, hi) == price * Overlap(a, b, lo, hi)
    decreases b - a
  {
    if a <= b {
      ChargesClosedForm(price, a + 1, b, lo, hi);
      var step := if lo <= a <= hi then 1 else 0;
      assert Overlap(a, b, lo, hi) == step + Overlap(a + 1, b, lo, hi);
      assert price * Overlap(a, b, lo, hi) == price * step + price * Overlap(a + 1, b, lo, hi);
    }
  }

  /** Per subscription, in month units: price times
      max(0, min(COALESCE(end, qEnd), qEnd) - max(start, qStart) + 1). */
  lemma RowCostClosedForm(s: Subscription, f: CostFilter)
    ensures RowCost(s, f) ==
      s.price * Overlap(s.startDate, SeriesEnd(s, f), FirstBilledMonth(f.dateStart), LastBilledMonth(f.dateEnd))
  {
    ChargesClosedForm(s.price, s.startDate, SeriesEnd(s, f), FirstBilledMonth(f.dateStart), LastBilledMonth(f.dateEnd));
  }

  /** A subscription contributes nothing when it ends before it starts, or
      when its payment dates all lie before or after the period. */
  lemma RowCostZero(s: Subscription, f: CostFilter)
    requires
      || (s.endDate.Some? && s.endDate.value < s.startDate)
      || SeriesEnd(s, f) < FirstBilledMonth(f.dateStart)
      || LastBilledMonth(f.dateEnd) < s.startDate
    ensures RowCost(s, f) == 0
  {
    RowCostClosedForm(s, f);
  }

  /** The total computed row by row from the closed form. */
  function ClosedFormTotal(rows: seq<Subscription>, f: CostFilter): int {
    if rows == [] then 0
    else
      var s := rows[0];
      (if Matches(f.userId, f.serviceName, s)
       then s.price * Overlap(s.startDate, SeriesEnd(s, f), FirstBilledMonth(f.dateStart), LastBilledMonth(f.dateEnd))
       else 0)
      + ClosedFormTotal(rows[1..], f)
  }

  /** The aggregate equals the closed form summed over the matching rows. */
  lemma {:induction false} TotalCostClosedForm(rows: seq<Subscription>, f: CostFilter)
    ensures TotalCost(rows, f) == ClosedFormTotal(rows, f)
  {
    if rows != [] {
      RowCostClosedForm(rows[0], f);
      TotalCostClosedForm(rows[1..], f);
    }
  }

  /** With no subscription matching the filters, the total is 0. */
  lemma {:induction false} NoMatchesNoCost(rows: seq<Subscription>, f: CostFilter)
    requires forall i | 0 <= i < |rows| :: !Matches(f.userId, f.serviceName, rows[i])
    ensures TotalCost(rows, f) == 0
  {
    if rows != [] {
      NoMatchesNoCost(rows[1..], f);
    }
  }

  /** The total over two groups of rows is the sum of their totals: the
      rows can be summed group by group. */
  lemma {:induction false} TotalCostAppend(xs: seq<Subscription>, ys: seq<Subscription>, f: CostFilter)
    ensures TotalCost(xs + ys, f) == TotalCost(xs, f) + TotalCost(ys, f)
  {
    if xs == [] {
      assert xs + ys == ys;
    } else {
      assert (xs + ys)[1..] == xs[1..] + ys;
      TotalCostAppend(xs[1..], ys, f);
    }
  }

  /** A subscription from January to June 2024 at price 100: 600 for the
      period January to June, 200 for March to April, 0 for a period before
      it starts; an open-ended one from January 2024 at price 50 costs 150 up
      to March 2024. */
  lemma WorkedExamples(s: Subscription, o: Subscription)
    requires s.startDate == MonthIndex(2024, 1) && s.endDate == Some(MonthIndex(2024, 6)) && s.price == 100
    requires o.startDate == MonthIndex(2024, 1) && o.endDate == None && o.price == 50
    ensures RowCost(s, Period(2024, 1, 2024, 6)) == 600
    ensures RowCost(s, Period(2024, 3, 2024, 4)) == 200
    ensures RowCost(s, Period(2023, 1, 2023, 12)) == 0
    ensures RowCost(o, Period(2024, 1, 2024, 3)) == 150
  {
    assert MonthIndex(2023, 1) == 24276 && MonthIndex(2023, 12) == 24287;
    assert MonthIndex(2024, 1) == 24288 && MonthIndex(2024, 3) == 24290;
    assert MonthIndex(2024, 4) == 24291 && MonthIndex(2024, 6) == 24293;
    var whole, middle, before, open := Period(2024, 1, 2024, 6), Period(2024, 3, 2024, 4), Period(2023, 1, 2023, 12), Period(2024, 1, 2024, 3);
    assert whole == CostFilter(FirstOf(24288), FirstOf(24293), None, None);
    assert middle == CostFilter(FirstOf(24290), FirstOf(24291), None, None);
    assert before == CostFilter(FirstOf(24276), FirstOf(24287), None, None);
    assert open == CostFilter(FirstOf(24288), FirstOf(24290), None, None);
    RowCostClosedForm(s, whole);
    RowCostClosedForm(s, middle);
    RowCostClosedForm(s, before);
    RowCostClosedForm(o, open);
  }

  /** The unfiltered period from the 1st of one month to the 1st of another. */
  function Period(fromYear: int, fromMonth: int, toYear: int, toMonth: int): (f: CostFilter)
    requires 1 <= fromMonth <= 12 && 1 <= toMonth <= 12
    ensures FirstBilledMonth(f.dateStart) == MonthIndex(fromYear, fromMonth)
    ensures LastBilledMonth(f.dateEnd) == MonthIndex(toYear, toMonth)
  {
    CostFilter(FirstOf(MonthIndex(fromYear, fromMonth)), FirstOf(MonthIndex(toYear, toMonth)), None, None)
  }
}
