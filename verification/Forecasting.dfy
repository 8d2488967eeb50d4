/**
 The forecast of one year: the windowed scan, its totals and its preview, proved against the
 plain list of every period of the contract's life.
 */
module Forecasting {
  import opened Calendar
  import opened Money
  import opened Sequences
  import opened Billing

  const MAX_PERIODS := 2000

  /** The rows of the periods `lo..hi`, inclusive, in order. */
  function Life(c: Contract, lo: int, hi: int): seq<Row>
    decreases hi - lo
  {
    if hi < lo then []
    else
      var earlier := Life(c, lo, hi - 1);
      match RowFor(c, hi)
      case None => earlier
      case Some(row) => earlier + [row]
  }

  function Amounts(rows: seq<Row>): seq<int> {
    seq(|rows|, i requires 0 <= i < |rows| => rows[i].amount)
  }

  function SumAmounts(rows: seq<Row>): int {
    Sum(Amounts(rows))
  }

  function InYear(year: int): Row -> bool {
    (row: Row) => row.invoiceDate.year == year
  }

  function DatedAfter(day: Day): Row -> bool {
    (row: Row) => Before(day, row.invoiceDate)
  }

  function FirstInvoiceDate(c: Contract): Day {
    InvoiceDate(c, c.First())
  }

  function FirstRow(c: Contract): Row {
    CoveredExactlyInLife(c, c.First());
    RowFor(c, c.First()).value
  }

  /** The last period that matters for invoices dated in `year` or earlier: the contract's last,
      or for an open-ended contract the one containing 31 December. */
  function LastRelevant(c: Contract, year: int): int {
    if c.endDate.Some? then c.Last() else PeriodIndex(Date(year, 12, 31), c.Months())
  }

  /** The simple form: every period of the contract's life, kept when its invoice is dated in
      `year`. */
  function Scheduled(c: Contract, year: int): seq<Row> {
    Filter(Life(c, c.First(), LastRelevant(c, year)), InYear(year))
  }

  /** What the preview shows: the scheduled rows dated after the first invoice. */
  function Upcoming(c: Contract, year: int): seq<Row> {
    Filter(Scheduled(c, year), DatedAfter(FirstInvoiceDate(c)))
  }

  // ----- The window -----

  function WindowStart(c: Contract, year: int): int {
    PeriodIndex(Date(year, 1, 1), c.Months()) - 1
  }

  function WindowEnd(c: Contract, year: int): int {
    PeriodIndex(Date(year, 12, 31), c.Months()) + 1
  }

  function ScanStart(c: Contract, year: int): int {
    if c.First() < WindowStart(c, year) then WindowStart(c, year) else c.First()
  }

  function ScanEnd(c: Contract, year: int): int {
    if c.endDate.Some? && c.Last() < WindowEnd(c, year) then c.Last() else WindowEnd(c, year)
  }

  /** The window spans at most 14 periods, so the MAX_PERIODS cut never fires. */
  lemma WindowIsSmall(c: Contract, year: int)
    ensures WindowEnd(c, year) - WindowStart(c, year) + 1 <= 14
    ensures ScanEnd(c, year) - ScanStart(c, year) <= MAX_PERIODS
  {}

  /** An invoice dated in `year` belongs to a period inside the window. */
  lemma DatedInsideTheWindow(c: Contract, year: int, index: int)
    requires InvoiceDate(c, index).year == year
    ensures WindowStart(c, year) <= index <= WindowEnd(c, year)
  {
    hide InvoiceDate, AnchorMonth;
    var m := c.Months();
    var january := PeriodIndex(Date(year, 1, 1), m);
    InvoiceDateShape(c, index);
    IndexOrder(year * 12, january, m);
    CancelFactor(january, index + 1, m);
    NotDatedPastTheYear(c, year, index);
  }

  lemma {:induction false} ScanTrim(c: Contract, year: int, lo: int, hi: int, a: int, b: int)
    requires lo <= a && b <= hi
    requires forall i :: lo <= i <= hi && !(a <= i <= b) && RowFor(c, i).Some?
                         ==> RowFor(c, i).value.invoiceDate.year != year
    ensures Filter(Life(c, lo, hi), InYear(year)) == Filter(Life(c, a, b), InYear(year))
    decreases hi - lo
  {
    hide RowFor, Filter;
    if lo <= hi {
      var b' := if b == hi then b - 1 else b;
      ScanTrim(c, year, lo, hi - 1, a, b');
      if RowFor(c, hi).Some? {
        FilterSnoc(Life(c, lo, hi - 1), RowFor(c, hi).value, InYear(year));
        if a <= hi <= b {
          FilterSnoc(Life(c, a, hi - 1), RowFor(c, hi).value, InYear(year));
        }
      }
    }
  }

  /** The windowed scan is exact: over the periods of the window it keeps the same list, in the
      same order, as over every period of the life, whatever horizon past the window is chosen
      for an open-ended contract. */
  lemma WindowedScanIsExact(c: Contract, year: int, horizon: int)
    requires if c.endDate.Some? then horizon == c.Last() else horizon >= LastRelevant(c, year)
    ensures Filter(Life(c, ScanStart(c, year), ScanEnd(c, year)), InYear(year))
            == Filter(Life(c, c.First(), horizon), InYear(year))
            == Scheduled(c, year)
  {
    hide RowFor, PeriodIndex, InvoiceDate, Life;
    var lo, hi := c.First(), if horizon < WindowEnd(c, year) then WindowEnd(c, year) else horizon;
    forall i | lo <= i <= hi && RowFor(c, i).Some? && RowFor(c, i).value.invoiceDate.year == year
      ensures ScanStart(c, year) <= i <= ScanEnd(c, year) && i <= LastRelevant(c, year)
    {
      RowDate(c, i);
      CoveredExactlyInLife(c, i);
      DatedInsideTheWindow(c, year, i);
      NotDatedPastTheYear(c, year, i);
    }
    ScanTrim(c, year, lo, hi, ScanStart(c, year), ScanEnd(c, year));
    ScanTrim(c, year, lo, hi, lo, horizon);
    ScanTrim(c, year, lo, hi, lo, LastRelevant(c, year));
  }

  lemma RowDate(c: Contract, index: int)
    requires RowFor(c, index).Some?
    ensures RowFor(c, index).value.invoiceDate == InvoiceDate(c, index)
    ensures RowFor(c, index).value.amount == PeriodAmount(c, index)
  {
    hide PeriodFor, InvoiceDate, PeriodAmount;
  }

  /** An invoice falls due exactly the payment terms after its date. */
  lemma DueDateIsExact(c: Contract, index: int)
    requires RowFor(c, index).Some?
    ensures DaysBetween(RowFor(c, index).value.invoiceDate, RowFor(c, index).value.DueDate()) == c.paymentTermsDays
  {
    hide Ordinal, PeriodFor, InvoiceDate, PlusDays;
    PlusDaysIsExact(InvoiceDate(c, index), c.paymentTermsDays);
  }

  lemma NotDatedPastTheYear(c: Contract, year: int, index: int)
    requires InvoiceDate(c, index).year <= year
    ensures index <= PeriodIndex(Date(year, 12, 31), c.Months())
  {
    hide InvoiceDate, AnchorMonth;
    InvoiceDateShape(c, index);
    IndexOrder(year * 12 + 11, index, c.Months());
  }

  // ----- What the life's list looks like -----

  lemma {:induction false} LifeRows(c: Contract, lo: int, hi: int)
    requires c.InLife(lo) && c.InLife(hi) && lo <= hi + 1
    ensures |Life(c, lo, hi)| == hi - lo + 1
    ensures forall k :: 0 <= k <= hi - lo ==> RowFor(c, lo + k) == Some(Life(c, lo, hi)[k])
    decreases hi - lo
  {
    hide RowFor, PeriodIndex;
    CoveredExactlyInLife(c, hi);
    if lo < hi {
      LifeRows(c, lo, hi - 1);
    } else if lo == hi {
      assert Life(c, lo, hi - 1) == [];
    }
  }

  lemma {:induction false} LifeSplit(c: Contract, lo: int, mid: int, hi: int)
    requires lo <= mid + 1 && mid <= hi
    ensures Life(c, lo, hi) == Life(c, lo, mid) + Life(c, mid + 1, hi)
    decreases hi - mid
  {
    hide RowFor;
    if mid < hi {
      LifeSplit(c, lo, mid, hi - 1);
    }
  }

  ghost predicate DatesIncrease(rows: seq<Row>) {
    forall i, j :: 0 <= i < j < |rows| ==> Before(rows[i].invoiceDate, rows[j].invoiceDate)
  }

  lemma {:induction false} LifeMembers(c: Contract, lo: int, hi: int)
    ensures forall row :: row in Life(c, lo, hi) <==> exists i :: lo <= i <= hi && RowFor(c, i) == Some(row)
    decreases hi - lo
  {
    hide RowFor;
    if lo <= hi {
      LifeMembers(c, lo, hi - 1);
      forall row ensures row in Life(c, lo, hi) <==> exists i :: lo <= i <= hi && RowFor(c, i) == Some(row) {
        if row in Life(c, lo, hi) && row !in Life(c, lo, hi - 1) {
          assert RowFor(c, hi) == Some(row);
        }
      }
    }
  }

  lemma {:induction false} LifeIsOrdered(c: Contract, lo: int, hi: int)
    requires c.First() <= lo
    ensures DatesIncrease(Life(c, lo, hi))
    decreases hi - lo
  {
    hide RowFor, PeriodIndex, InvoiceDate;
    if lo <= hi {
      LifeIsOrdered(c, lo, hi - 1);
      var earlier := Life(c, lo, hi - 1);
      if RowFor(c, hi).Some? {
        forall k | 0 <= k < |earlier| ensures Before(earlier[k].invoiceDate, RowFor(c, hi).value.invoiceDate) {
          LifeMembers(c, lo, hi - 1);
          assert earlier[k] in earlier;
          var i :| lo <= i <= hi - 1 && RowFor(c, i) == Some(earlier[k]);
          RowDate(c, i);
          RowDate(c, hi);
          InvoiceDatesIncrease(c, i, hi);
        }
      }
    }
  }

  // ----- The preview -----

  lemma LifeFromFirst(c: Contract, hi: int)
    requires c.First() <= hi
    ensures Life(c, c.First(), hi) == [FirstRow(c)] + Life(c, c.First() + 1, hi)
    ensures FirstRow(c).invoiceDate == FirstInvoiceDate(c)
    ensures !DatedAfter(FirstInvoiceDate(c))(FirstRow(c))
  {
    hide RowFor, PeriodIndex, InvoiceDate;
    var first := c.First();
    FirstPeriodHasARow(c);
    LifeSplit(c, first, first, hi);
    assert Life(c, first, first - 1) == [];
  }

  lemma LaterRowsAreDatedLater(c: Contract, hi: int)
    ensures forall row :: row in Life(c, c.First() + 1, hi) ==> DatedAfter(FirstInvoiceDate(c))(row)
  {
    hide RowFor, PeriodIndex, InvoiceDate, Life, Before;
    var first := c.First();
    LifeMembers(c, first + 1, hi);
    forall row | row in Life(c, first + 1, hi) ensures DatedAfter(FirstInvoiceDate(c))(row) {
      var i :| first + 1 <= i <= hi && RowFor(c, i) == Some(row);
      RowDate(c, i);
      InvoiceDatesIncrease(c, first, i);
    }
  }

  /** The preview drops exactly the first invoice, and only in the year that one is dated in. */
  lemma PreviewDropsExactlyTheFirst(c: Contract, year: int)
    ensures Scheduled(c, year)
            == (if FirstInvoiceDate(c).year == year then [FirstRow(c)] else []) + Upcoming(c, year)
    ensures |Upcoming(c, year)| != |Scheduled(c, year)| <==> FirstInvoiceDate(c).year == year
  {
    hide RowFor, PeriodIndex, InvoiceDate, FirstRow, FirstInvoiceDate, Life, DatedAfter;
    var first, last := c.First(), LastRelevant(c, year);
    var horizon := if last < first then first else last;
    CoveredExactlyInLife(c, first);
    WindowedScanIsExact(c, year, horizon);
    LifeFromFirst(c, horizon);
    LaterRowsAreDatedLater(c, horizon);
    FilterDropsHead(FirstRow(c), Life(c, first + 1, horizon), InYear(year), DatedAfter(FirstInvoiceDate(c)));
  }

  lemma {:induction false} SumAmountsConcat(a: seq<Row>, b: seq<Row>)
    ensures SumAmounts(a + b) == SumAmounts(a) + SumAmounts(b)
    decreases |b|
  {
    if b == [] {
      assert a + b == a;
    } else {
      var b', x := b[..|b| - 1], b[|b| - 1];
      SumAmountsConcat(a, b');
      assert Amounts(a + b) == Amounts(a + b') + [x.amount];
      assert Amounts(b) == Amounts(b') + [x.amount];
      SumSnoc(Amounts(a + b'), x.amount);
      SumSnoc(Amounts(b'), x.amount);
    }
  }

  /** The yearly figure exceeds the previewed total by the first period's amount in the year that
      period is dated in, and by nothing otherwise. */
  lemma YearlyMinusPreview(c: Contract, year: int)
    ensures SumAmounts(Scheduled(c, year)) - SumAmounts(Upcoming(c, year))
            == if FirstInvoiceDate(c).year == year then FirstRow(c).amount else 0
  {
    hide RowFor, PeriodIndex, InvoiceDate;
    PreviewDropsExactlyTheFirst(c, year);
    var head := if FirstInvoiceDate(c).year == year then [FirstRow(c)] else [];
    SumAmountsConcat(head, Upcoming(c, year));
    SumSnoc([], FirstRow(c).amount);
    assert [] + [FirstRow(c).amount] == Amounts([FirstRow(c)]);
    assert Amounts([]) == [];
  }

  // ----- Years partition the life -----

  function SumOverYears(rows: seq<Row>, a: int, b: int): int
    decreases b - a
  {
    if b < a then 0 else SumOverYears(rows, a, b - 1) + SumAmounts(Filter(rows, InYear(b)))
  }

  lemma SumAmountsSnoc(rows: seq<Row>, row: Row)
    ensures SumAmounts(rows + [row]) == SumAmounts(rows) + row.amount
  {
    assert Amounts(rows + [row]) == Amounts(rows) + [row.amount];
    SumSnoc(Amounts(rows), row.amount);
  }

  lemma {:induction false} OneMoreRow(rows: seq<Row>, row: Row, a: int, b: int)
    ensures SumOverYears(rows + [row], a, b)
            == SumOverYears(rows, a, b) + if a <= row.invoiceDate.year <= b then row.amount else 0
    decreases b - a
  {
    if a <= b {
      OneMoreRow(rows, row, a, b - 1);
      FilterSnoc(rows, row, InYear(b));
      SumAmountsSnoc(Filter(rows, InYear(b)), row);
    }
  }

  lemma {:induction false} EachRowInOneYear(rows: seq<Row>, a: int, b: int)
    requires forall row :: row in rows ==> a <= row.invoiceDate.year <= b
    ensures SumOverYears(rows, a, b) == SumAmounts(rows)
  {
    if rows == [] {
      NoRows(a, b);
    } else {
      var rest, row := rows[..|rows| - 1], rows[|rows| - 1];
      EachRowInOneYear(rest, a, b);
      OneMoreRow(rest, row, a, b);
      SumAmountsSnoc(rest, row);
      assert rows == rest + [row];
    }
  }

  lemma {:induction false} NoRows(a: int, b: int)
    ensures SumOverYears([], a, b) == 0
    decreases b - a
  {
    if a <= b {
      NoRows(a, b - 1);
    }
  }

  lemma DatedWithinTheLife(c: Contract, index: int)
    requires c.InLife(index)
    ensures c.startDate.year <= InvoiceDate(c, index).year
    ensures c.endDate.Some? ==> InvoiceDate(c, index).year <= c.endDate.value.year + 1
  {
    hide InvoiceDate, AnchorMonth;
    NoInvoiceBeforeStart(c, index);
    InvoiceDateShape(c, index);
    if c.endDate.Some? {
      IndexOrder(AbsMonth(c.endDate.value), index, c.Months());
      assert (index + 1) * c.Months() == index * c.Months() + c.Months();
    }
  }

  function YearlyAmounts(c: Contract, a: int, b: int): int
    decreases b - a
  {
    if b < a then 0 else YearlyAmounts(c, a, b - 1) + SumAmounts(Scheduled(c, b))
  }

  lemma {:induction false} YearlyAmountsOfLife(c: Contract, a: int, b: int)
    requires c.endDate.Some?
    ensures YearlyAmounts(c, a, b) == SumOverYears(Life(c, c.First(), c.Last()), a, b)
    decreases b - a
  {
    hide RowFor, PeriodIndex, SumAmounts;
    if a <= b {
      YearlyAmountsOfLife(c, a, b - 1);
    }
  }

  lemma {:induction false} LifeTotal(c: Contract, hi: int)
    requires c.InLife(hi) || hi == c.First() - 1
    ensures SumAmounts(Life(c, c.First(), hi)) == TotalBilled(c, c.First(), hi)
    decreases hi - c.First()
  {
    hide PeriodIndex, PeriodFor, PeriodAmount;
    if c.First() <= hi {
      LifeTotal(c, hi - 1);
      CoveredExactlyInLife(c, hi);
      SumAmountsSnoc(Life(c, c.First(), hi - 1), RowFor(c, hi).value);
    }
  }

  /** Money is conserved across years: the yearly figures from the start year to the year after
      the end add up to everything the contract bills, each period counted once. */
  lemma YearsConserveMoney(c: Contract)
    requires c.endDate.Some?
    ensures YearlyAmounts(c, c.startDate.year, c.endDate.value.year + 1)
            == TotalBilled(c, c.First(), c.Last())
  {
    hide RowFor, PeriodIndex, InvoiceDate, SumAmounts;
    var life := Life(c, c.First(), c.Last());
    CoveredExactlyInLife(c, c.Last());
    LifeTotal(c, c.Last());
    LifeMembers(c, c.First(), c.Last());
    forall row | row in life ensures c.startDate.year <= row.invoiceDate.year <= c.endDate.value.year + 1 {
      var i :| c.First() <= i <= c.Last() && RowFor(c, i) == Some(row);
      RowDate(c, i);
      DatedWithinTheLife(c, i);
    }
    YearlyAmountsOfLife(c, c.startDate.year, c.endDate.value.year + 1);
    EachRowInOneYear(life, c.startDate.year, c.endDate.value.year + 1);
  }

  // ----- A full year -----

  /** The first period invoiced in `year`: the one anchored in January. */
  function FirstAnchored(c: Contract, year: int): int {
    year * PeriodsPerYear(c.billingPeriod) - (if c.billingType == Arrears then 1 else 0)
  }

  lemma AnchorOrder(c: Contract, year: int, index: int)
    ensures FirstAnchored(c, year) <= index < FirstAnchored(c, year) + PeriodsPerYear(c.billingPeriod)
            <==> AnchorMonth(c, index) / 12 == year
  {}

  lemma DatedInTheAnchorYear(c: Contract, index: int)
    requires c.First() <= index
    ensures InvoiceDate(c, index).year == AnchorMonth(c, index) / 12
  {
    hide InvoiceDate, PeriodIndex;
    InvoiceDateShape(c, index);
    var m := c.Months();
    IndexOfDay(c.startDate, c.First(), m);
    IndexOfDay(c.startDate, c.First() + 1, m);
    SameYear(c.First(), m, AbsMonth(c.startDate));
  }

  lemma SameYear(k: int, m: nat, month: int)
    requires m == 1 || m == 3 || m == 12
    ensures k * m <= month < (k + 1) * m ==> month / 12 == k * m / 12
  {
    if k * m <= month < (k + 1) * m {
      var year := PeriodWithinYear(k, m);
      QuotientUnique(year, month, 12);
      QuotientUnique(year, k * m, 12);
    }
  }

  lemma PeriodWithinYear(k: int, m: nat) returns (year: int)
    requires m == 1 || m == 3 || m == 12
    ensures 12 * year <= k * m < (k + 1) * m <= 12 * year + 12
  {
    match m
    case 1 => year := k / 12;
    case 3 => year := k / 4;
    case 12 => year := k;
  }

  lemma RowsOfTheYear(c: Contract, year: int, index: int)
    requires c.First() <= index && RowFor(c, index).Some?
    ensures RowFor(c, index).value.invoiceDate.year == year
            <==> FirstAnchored(c, year) <= index < FirstAnchored(c, year) + PeriodsPerYear(c.billingPeriod)
  {
    hide RowFor, PeriodIndex, InvoiceDate, FirstAnchored, AnchorMonth, PeriodsPerYear;
    RowDate(c, index);
    DatedInTheAnchorYear(c, index);
    AnchorOrder(c, year, index);
  }

  /** The rows dated in `year`, when they are known to be those of the periods `a..b`. */
  lemma ScheduledRange(c: Contract, year: int, a: int, b: int)
    requires c.InLife(a) && c.InLife(b) && a <= b
    requires forall i :: c.First() <= i && RowFor(c, i).Some?
                         ==> (RowFor(c, i).value.invoiceDate.year == year <==> a <= i <= b)
    ensures Scheduled(c, year) == Life(c, a, b)
    ensures |Scheduled(c, year)| == b - a + 1
  {
    hide RowFor, PeriodIndex, InvoiceDate, Life, LastRelevant, Filter;
    CoveredExactlyInLife(c, b);
    LastRelevantCovers(c, year, b);
    ScanTrim(c, year, c.First(), LastRelevant(c, year), a, b);
    LifeRows(c, a, b);
    forall row | row in Life(c, a, b) ensures InYear(year)(row) {
      var k :| 0 <= k <= b - a && Life(c, a, b)[k] == row;
      assert RowFor(c, a + k) == Some(row);
    }
    FilterAll(Life(c, a, b), InYear(year));
  }

  lemma LastRelevantCovers(c: Contract, year: int, index: int)
    requires c.InLife(index) && RowFor(c, index).Some? && RowFor(c, index).value.invoiceDate.year <= year
    ensures index <= LastRelevant(c, year)
  {
    hide RowFor, InvoiceDate, PeriodIndex;
    RowDate(c, index);
    NotDatedPastTheYear(c, year, index);
  }

  /** A year all of whose invoices fall within the contract's life schedules every period of that
      year once: 12, 4 or 1 of them. */
  lemma FullYearIsEveryPeriod(c: Contract, year: int)
    requires c.InLife(FirstAnchored(c, year))
    requires c.InLife(FirstAnchored(c, year) + PeriodsPerYear(c.billingPeriod) - 1)
    ensures Scheduled(c, year)
            == Life(c, FirstAnchored(c, year), FirstAnchored(c, year) + PeriodsPerYear(c.billingPeriod) - 1)
    ensures |Scheduled(c, year)| == PeriodsPerYear(c.billingPeriod)
  {
    hide RowFor, PeriodIndex, FirstAnchored, Life, Scheduled, PeriodsPerYear;
    var a, b := FirstAnchored(c, year), FirstAnchored(c, year) + PeriodsPerYear(c.billingPeriod) - 1;
    forall i | c.First() <= i && RowFor(c, i).Some?
      ensures RowFor(c, i).value.invoiceDate.year == year <==> a <= i <= b
    {
      RowsOfTheYear(c, year, i);
    }
    ScheduledRange(c, year, a, b);
  }

  lemma {:induction false} EqualAmounts(c: Contract, a: int, n: nat, amount: int)
    requires forall i :: a <= i < a + n ==> RowFor(c, i).Some? && RowFor(c, i).value.amount == amount
    ensures SumAmounts(Life(c, a, a + n - 1)) == n * amount
  {
    hide RowFor, SumAmounts;
    if n == 0 {
      assert SumAmounts([]) == 0 by { NoAmounts(); }
    } else {
      EqualAmounts(c, a, n - 1, amount);
      SumAmountsSnoc(Life(c, a, a + n - 2), RowFor(c, a + n - 1).value);
      assert n * amount == (n - 1) * amount + amount;
    }
  }

  lemma NoAmounts()
    ensures SumAmounts([]) == 0
  {}

  /** With one price all year and nothing prorated, the yearly figure is that price times the number
      of periods in a year. */
  lemma FullYearAmount(c: Contract, year: int, amount: int)
    requires c.InLife(FirstAnchored(c, year))
    requires c.InLife(FirstAnchored(c, year) + PeriodsPerYear(c.billingPeriod) - 1)
    requires forall i :: FirstAnchored(c, year) <= i < FirstAnchored(c, year) + PeriodsPerYear(c.billingPeriod)
                         ==> PeriodAmount(c, i) == amount
    ensures SumAmounts(Scheduled(c, year)) == PeriodsPerYear(c.billingPeriod) * amount
  {
    hide PeriodIndex, PeriodFor, PeriodAmount, InvoiceDate, Scheduled, Life, FirstAnchored, RowFor, PeriodsPerYear;
    var a, n := FirstAnchored(c, year), PeriodsPerYear(c.billingPeriod);
    FullYearIsEveryPeriod(c, year);
    forall i | a <= i < a + n ensures RowFor(c, i).Some? && RowFor(c, i).value.amount == amount {
      CoveredExactlyInLife(c, i);
      RowDate(c, i);
    }
    EqualAmounts(c, a, n, amount);
  }

  // ----- Revisions and history -----

  /** `c'` is `c` after revision `r` was added. */
  ghost predicate RevisionAdded(c: Contract, c': Contract, r: Revision) {
    && c' == c.(revisions := c'.revisions)
    && forall s :: s in c'.revisions <==> s in c.revisions || s == r
  }

  lemma ActiveAfterAdding(c: Contract, c': Contract, r: Revision, on: Day)
    requires RevisionAdded(c, c', r)
    ensures Before(on, r.effectiveFrom) ==> ActiveRevision(c', on) == ActiveRevision(c, on)
    ensures ActiveRevision(c', on) == ActiveRevision(c, on) || ActiveRevision(c', on) == Some(r)
    ensures ActiveRevision(c', on) == Some(r)
            <==> InForce(r, on) && match ActiveRevision(c, on)
                                   case None => true
                                   case Some(s) => s == r || Outranks(r, s)
  {
    hide ActiveRevision;
    ActiveRevisionGoverns(c, on);
    ActiveRevisionGoverns(c', on);
    if ActiveRevision(c, on).Some? && ActiveRevision(c', on).Some? && ActiveRevision(c', on) != Some(r) {
      GovernsIsUnique(ActiveRevision(c, on).value, ActiveRevision(c', on).value, c.revisions, on);
    }
  }

  /** Adding a revision effective from some date changes no row of a period that starts before it;
      any other row is changed only in its amount. */
  lemma HistoryIsStable(c: Contract, c': Contract, r: Revision, index: int)
    requires RevisionAdded(c, c', r) && RowFor(c, index).Some?
    ensures RowFor(c', index).Some?
    ensures RowFor(c', index).value == RowFor(c, index).value.(amount := RowFor(c', index).value.amount)
    ensures Before(RowFor(c, index).value.periodStart, r.effectiveFrom) ==> RowFor(c', index) == RowFor(c, index)
  {
    hide AgreedAmount, PeriodFor, InvoiceDate, CoveredStart, CoveredEnd, Prorate;
    SameDates(c, c', index);
    var on := CoveredStart(c, index);
    ActiveAfterAdding(c, c', r, on);
    if Before(on, r.effectiveFrom) {
      assert AgreedAmount(c', on) == AgreedAmount(c, on) by { SameAgreedAmount(c, c', on); }
    }
  }

  lemma SameAgreedAmount(c: Contract, c': Contract, on: Day)
    requires ActiveRevision(c', on) == ActiveRevision(c, on)
    ensures AgreedAmount(c', on) == AgreedAmount(c, on)
  {}

  lemma SameDates(c: Contract, c': Contract, index: int)
    requires c' == c.(revisions := c'.revisions)
    ensures CoveredStart(c', index) == CoveredStart(c, index) && CoveredEnd(c', index) == CoveredEnd(c, index)
    ensures PeriodFor(c', index) == PeriodFor(c, index)
    ensures InvoiceDate(c', index) == InvoiceDate(c, index)
  {
    hide Ordinal, PeriodStart, PeriodEnd, PeriodIndex, AddMonths;
  }

  // ----- The forecast object -----

  class Forecast {
    var year: int
    var rows: seq<Row>
    var rowsTotal: int
    var yearlyAmount: int
    var monthlyAmount: int
    var invoicesPerYear: nat
    var firstInvoiceDate: Option<Day>
    var excludedFirstInvoice: bool

    constructor (year: int, invoicesPerYear: nat)
      ensures this.year == year && this.invoicesPerYear == invoicesPerYear
      ensures rows == [] && rowsTotal == 0 && yearlyAmount == 0 && monthlyAmount == 0
      ensures firstInvoiceDate == None && !excludedFirstInvoice
    {
      this.year, this.invoicesPerYear := year, invoicesPerYear;
      rows, rowsTotal, yearlyAmount, monthlyAmount := [], 0, 0, 0;
      firstInvoiceDate, excludedFirstInvoice := None, false;
    }
  }

  lemma LifeStep(c: Contract, lo: int, index: int, year: int)
    requires lo <= index
    ensures Filter(Life(c, lo, index), InYear(year))
            == Filter(Life(c, lo, index - 1), InYear(year))
               + (if RowFor(c, index).Some? && RowFor(c, index).value.invoiceDate.year == year
                  then [RowFor(c, index).value] else [])
  {}

  method ScanPeriods(c: Contract, year: int, scanStart: int, scanEnd: int) returns (scheduled: seq<Row>)
    ensures scheduled == Filter(Life(c, scanStart, scanEnd), InYear(year))
  {
    hide RowFor;
    scheduled := [];
    var index := scanStart;
    while index <= scanEnd
      invariant scanStart <= index <= if scanStart <= scanEnd then scanEnd + 1 else scanStart
      invariant scheduled == Filter(Life(c, scanStart, index - 1), InYear(year))
    {
      var row := RowFor(c, index);
      LifeStep(c, scanStart, index, year);
      if row.Some? && row.value.invoiceDate.year == year {
        scheduled := scheduled + [row.value];
      }
      index := index + 1;
    }
    if scanEnd < scanStart {
      assert Life(c, scanStart, scanEnd) == [];
    }
  }

  /** The scan with its window and its cut. */
  method ScanYear(c: Contract, year: int) returns (scheduled: seq<Row>)
    ensures scheduled == Scheduled(c, year)
  {
    hide Life, Scheduled, PeriodIndex;
    var windowStart := WindowStart(c, year);
    var windowEnd := WindowEnd(c, year);
    var scanStart := if c.First() < windowStart then windowStart else c.First();
    var scanEnd := if c.endDate == None || windowEnd < c.Last() then windowEnd else c.Last();
    WindowIsSmall(c, year);
    if scanEnd - scanStart > MAX_PERIODS {
      scanEnd := scanStart + MAX_PERIODS;
    }
    scheduled := ScanPeriods(c, year, scanStart, scanEnd);
    WindowedScanIsExact(c, year, LastRelevant(c, year));
  }

  method DropDatedUpTo(scheduled: seq<Row>, day: Day) returns (visible: seq<Row>)
    ensures visible == Filter(scheduled, DatedAfter(day))
  {
    visible := [];
    for i := 0 to |scheduled|
      invariant visible == Filter(scheduled[..i], DatedAfter(day))
    {
      assert scheduled[..i + 1] == scheduled[..i] + [scheduled[i]];
      FilterSnoc(scheduled[..i], scheduled[i], DatedAfter(day));
      if Before(day, scheduled[i].invoiceDate) {
        visible := visible + [scheduled[i]];
      }
    }
    assert scheduled[..|scheduled|] == scheduled;
  }

  lemma FirstPeriodHasARow(c: Contract)
    ensures RowFor(c, c.First()) == Some(FirstRow(c))
    ensures FirstRow(c).invoiceDate == FirstInvoiceDate(c)
    ensures FirstRow(c).coveredDays > 0
  {
    hide PeriodFor, PeriodIndex, InvoiceDate;
    CoveredExactlyInLife(c, c.First());
  }

  ghost predicate IsComputed(c: Contract, row: Row) {
    exists i :: c.InLife(i) && RowFor(c, i) == Some(row) && row.amount == ComputedAmount(c, i)
  }

  /** Every scheduled row carries the amount that the code's two roundings give. */
  lemma ScheduledAsComputed(c: Contract, year: int)
    requires AmountsFit(c)
    ensures forall row :: row in Scheduled(c, year) ==> IsComputed(c, row)
  {
    hide RowFor, PeriodIndex, InvoiceDate, ComputedAmount, AmountsFit, Life;
    var last := LastRelevant(c, year);
    FilterMembers(Life(c, c.First(), last), InYear(year));
    LifeMembers(c, c.First(), last);
    forall row | row in Scheduled(c, year) ensures IsComputed(c, row) {
      var i :| c.First() <= i <= last && RowFor(c, i) == Some(row);
      CoveredExactlyInLife(c, i);
      RowDate(c, i);
      PeriodAmountAsComputed(c, i);
    }
  }

  lemma UpcomingAsComputed(c: Contract, year: int)
    requires AmountsFit(c)
    ensures forall row :: row in Upcoming(c, year) ==> IsComputed(c, row)
  {
    hide IsComputed, Scheduled, AmountsFit;
    ScheduledAsComputed(c, year);
    FilterMembers(Scheduled(c, year), DatedAfter(FirstInvoiceDate(c)));
  }

  /** `build_forecast`: an empty answer for an extra-work register, otherwise the year's planned
      invoices with the already raised first one left out of the rows but kept in the yearly sum.
      The first period of a storable contract always has a row, so the code's return for a missing
      one is never taken. */
  method BuildForecast(c: Contract, year: int, today: Day) returns (f: Forecast)
    ensures fresh(f)
    ensures f.year == year && f.invoicesPerYear == PeriodsPerYear(c.billingPeriod)
    ensures c.kind == ExtraWork ==>
              && f.rows == [] && f.rowsTotal == f.yearlyAmount == f.monthlyAmount == 0
              && f.firstInvoiceDate == None && !f.excludedFirstInvoice
    ensures c.kind == Standard ==>
              && f.firstInvoiceDate == Some(FirstInvoiceDate(c))
              && f.rows == Upcoming(c, year)
              && f.rowsTotal == SumAmounts(Upcoming(c, year))
              && f.yearlyAmount == SumAmounts(Scheduled(c, year))
              && f.monthlyAmount == RoundHalfUp(AgreedAmount(c, today), c.Months())
              && (f.excludedFirstInvoice <==> FirstInvoiceDate(c).year == year)
    ensures c.kind == Standard && AmountsFit(c) ==>
              && f.monthlyAmount == DivideThenQuantize(AgreedAmount(c, today), c.Months())
              && forall row :: row in f.rows ==> IsComputed(c, row)
  {
    hide RowFor, PeriodIndex, InvoiceDate, FirstRow, FirstInvoiceDate, Scheduled, SumAmounts, AgreedAmount, AmountsFit,
         IsComputed, DivideThenQuantize, RoundHalfUp;
    if AmountsFit(c) {
      MonthlyAmountAsComputed(c, today);
      UpcomingAsComputed(c, year);
    }
    FirstPeriodHasARow(c);
    PreviewDropsExactlyTheFirst(c, year);
    f := new Forecast(year, PeriodsPerYear(c.billingPeriod));
    if c.kind == ExtraWork {
      return;
    }
    var currentAmount := AmountForPeriod(c, today);
    f.monthlyAmount := RoundHalfUp(currentAmount, c.Months());

    var firstRow := RowFor(c, c.First());
    f.firstInvoiceDate := Some(firstRow.value.invoiceDate);

    var scheduled := ScanYear(c, year);
    f.yearlyAmount := SumAmounts(scheduled);
    var visible := DropDatedUpTo(scheduled, firstRow.value.invoiceDate);
    f.excludedFirstInvoice := |visible| != |scheduled|;
    f.rows := visible;
    f.rowsTotal := SumAmounts(visible);
  }
}
