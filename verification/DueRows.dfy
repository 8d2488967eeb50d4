/**
 Which forecast rows are due for invoicing: the first row put back in front of the preview, and
 the walk over the years up to the run date.
 */
module DueRows {
  import opened Calendar
  import opened Money
  import opened Sequences
  import opened Billing
  import opened Forecasting

  /** The first period's row, rebuilt from the same primitives the forecast uses. */
  method RebuildFirstRow(c: Contract) returns (row: Row)
    ensures row == FirstRow(c)
  {
    hide Ordinal, AddMonths, RevisionAmount, ActiveRevision;
    FirstPeriodHasARow(c);
    var months := c.Months();
    var index := PeriodIndex(c.startDate, months);
    var pStart, pEnd := PeriodStart(index, months), PeriodEnd(index, months);
    var coveredStart := Later(pStart, c.startDate);
    var coveredEnd := if c.endDate.Some? then Earlier(pEnd, c.endDate.value) else pEnd;
    var periodDays := DaysBetween(pStart, pEnd) + 1;
    var coveredDays := DaysBetween(coveredStart, coveredEnd) + 1;
    var invoiceDate := InvoiceDateFor(c, pStart, pEnd, true);
    var base := AmountForPeriod(c, coveredStart);
    row := Row(invoiceDate, c.paymentTermsDays, coveredStart, coveredEnd,
               if c.startProration then Prorate(base, coveredDays, periodDays) else base,
               c.startProration && coveredDays < periodDays, coveredDays, periodDays);
  }

  /** `_scheduled_rows`: filtering the first invoice out of the preview and putting it back gives
      the year's scheduled rows, field for field and in order. */
  method ScheduledRows(c: Contract, year: int, on: Day) returns (rows: seq<Row>)
    requires c.kind == Standard
    ensures rows == Scheduled(c, year)
  {
    hide RowFor, InvoiceDate, FirstRow, Scheduled;
    PreviewDropsExactlyTheFirst(c, year);
    var forecast := BuildForecast(c, year, on);
    rows := forecast.rows;
    if !forecast.excludedFirstInvoice {
      return;
    }
    var first := RebuildFirstRow(c);
    FirstPeriodHasARow(c);
    if first.coveredDays <= 0 || first.invoiceDate.year != year {
      return;
    }
    rows := [first] + rows;
  }

  // ----- The walk over the years -----

  function LastYear(c: Contract, on: Day): int {
    if c.endDate.Some? && c.endDate.value.year < on.year then c.endDate.value.year else on.year
  }

  /** The invoice date has arrived and does not lie past `year`. */
  function DueThrough(on: Day, year: int): Row -> bool {
    (row: Row) => !Before(on, row.invoiceDate) && row.invoiceDate.year <= year
  }

  function Arrived(on: Day): Row -> bool {
    (row: Row) => !Before(on, row.invoiceDate)
  }

  /** Every row that can be due on `on`. */
  function LifeTo(c: Contract, on: Day): seq<Row> {
    Life(c, c.First(), LastRelevant(c, on.year))
  }

  /** The due rows, declaratively: of the whole life, the rows whose date has arrived and is not
      past the contract's end year. */
  function Due(c: Contract, on: Day): seq<Row> {
    Filter(LifeTo(c, on), DueThrough(on, LastYear(c, on)))
  }

  /** Period starts tell the rows of one contract apart. */
  lemma PeriodStartsIncrease(c: Contract, i: int, j: int)
    requires c.First() <= i < j
    ensures Before(CoveredStart(c, i), CoveredStart(c, j))
  {
    hide Ordinal, PeriodStart, PeriodIndex;
    PeriodAgainst(c.startDate, j, c.Months());
    StartOrder(i, j, c.Months());
    OrdinalOrder(CoveredStart(c, i), CoveredStart(c, j));
    OrdinalOrder(c.startDate, PeriodStart(j, c.Months()));
    OrdinalOrder(PeriodStart(i, c.Months()), PeriodStart(j, c.Months()));
  }

  lemma StartOrder(i: int, j: int, months: nat)
    requires months == 1 || months == 3 || months == 12
    requires i < j
    ensures Before(PeriodStart(i, months), PeriodStart(j, months))
  {
    hide Before, PeriodStart, MonthStart;
    StartsWithAMonth(i, months);
    StartsWithAMonth(j, months);
    MonthOf(i * months);
    MulOrder(i + 1, j, months);
    assert (i + 1) * months == i * months + months;
    FirstOfMonthOrder(MonthStart(i * months), j * months);
  }

  ghost predicate YearsIncrease(rows: seq<Row>) {
    forall i, j :: 0 <= i < j < |rows| ==> rows[i].invoiceDate.year <= rows[j].invoiceDate.year
  }

  lemma {:induction false} OneMoreYear(rows: seq<Row>, on: Day, year: int)
    requires YearsIncrease(rows)
    ensures Filter(rows, DueThrough(on, year))
            == Filter(rows, DueThrough(on, year - 1)) + Filter(Filter(rows, InYear(year)), Arrived(on))
  {
    hide Before;
    if rows != [] {
      var rest, row := rows[..|rows| - 1], rows[|rows| - 1];
      OneMoreYear(rest, on, year);
      if row.invoiceDate.year < year {
        forall r | r in rest ensures !InYear(year)(r) {
          var k :| 0 <= k < |rest| && rest[k] == r;
          assert rows[k] == r;
        }
        FilterNone(rest, InYear(year));
      } else if row.invoiceDate.year == year {
        FilterSnoc(Filter(rest, InYear(year)), row, Arrived(on));
      }
    }
  }

  ghost predicate Identifies(rows: seq<Row>) {
    forall r, s :: r in rows && s in rows && r.periodStart == s.periodStart ==> r == s
  }

  lemma LifeIsIdentified(c: Contract, lo: int, hi: int)
    requires c.First() <= lo
    ensures Identifies(Life(c, lo, hi))
  {
    hide RowFor, PeriodIndex, Before, CoveredStart;
    LifeMembers(c, lo, hi);
    forall r, s | r in Life(c, lo, hi) && s in Life(c, lo, hi) && r.periodStart == s.periodStart
      ensures r == s
    {
      var i :| lo <= i <= hi && RowFor(c, i) == Some(r);
      var j :| lo <= j <= hi && RowFor(c, j) == Some(s);
      RowStart(c, i);
      RowStart(c, j);
      if i < j {
        PeriodStartsIncrease(c, i, j);
        OrdinalOrder(r.periodStart, s.periodStart);
      } else if j < i {
        PeriodStartsIncrease(c, j, i);
        OrdinalOrder(s.periodStart, r.periodStart);
      }
    }
  }

  lemma RowStart(c: Contract, index: int)
    requires RowFor(c, index).Some?
    ensures RowFor(c, index).value.periodStart == CoveredStart(c, index)
  {}

  ghost function Starts(rows: seq<Row>): set<Day> {
    set row | row in rows :: row.periodStart
  }

  /** One year's part of the walk: arrived rows whose period has not been yielded yet. */
  method KeepArrived(scheduled: seq<Row>, on: Day, seen: set<Day>) returns (kept: seq<Row>, seen': set<Day>)
    requires DatesIncrease(scheduled) && Identifies(scheduled)
    requires Starts(scheduled) !! seen
    ensures kept == Filter(scheduled, Arrived(on))
    ensures seen' == seen + Starts(kept)
  {
    hide Before, Starts, Identifies, DatesIncrease;
    kept, seen' := [], seen;
    StartsConcat([], []);
    for i := 0 to |scheduled|
      invariant kept == Filter(scheduled[..i], Arrived(on))
      invariant seen' == seen + Starts(kept)
    {
      assert scheduled[..i + 1] == scheduled[..i] + [scheduled[i]];
      FilterSnoc(scheduled[..i], scheduled[i], Arrived(on));
      if Before(on, scheduled[i].invoiceDate) {
        continue;
      }
      FilterMembers(scheduled[..i], Arrived(on));
      NotYetSeen(scheduled, i, kept, seen);
      if scheduled[i].periodStart in seen' {
        continue;
      }
      StartsSnoc(kept, scheduled[i]);
      seen' := seen' + {scheduled[i].periodStart};
      kept := kept + [scheduled[i]];
    }
    assert scheduled[..|scheduled|] == scheduled;
  }

  lemma StartsSnoc(rows: seq<Row>, row: Row)
    ensures Starts(rows + [row]) == Starts(rows) + {row.periodStart}
  {}

  lemma NotYetSeen(scheduled: seq<Row>, i: nat, kept: seq<Row>, seen: set<Day>)
    requires i < |scheduled| && DatesIncrease(scheduled) && Identifies(scheduled) && Starts(scheduled) !! seen
    requires forall r :: r in kept ==> r in scheduled[..i]
    ensures scheduled[i].periodStart !in seen + Starts(kept)
  {}

  lemma {:induction false} FilterKeepsDates(rows: seq<Row>, keep: Row -> bool)
    requires DatesIncrease(rows)
    ensures DatesIncrease(Filter(rows, keep))
  {
    if rows != [] {
      var rest, row := rows[..|rows| - 1], rows[|rows| - 1];
      FilterKeepsDates(rest, keep);
      FilterMembers(rest, keep);
      var kept := Filter(rest, keep);
      forall i | 0 <= i < |kept| ensures Before(kept[i].invoiceDate, row.invoiceDate) {
        assert kept[i] in kept;
        var k :| 0 <= k < |rest| && rest[k] == kept[i];
        assert rows[k] == rest[k];
      }
    }
  }

  /** One turn of the year loop, seen from the whole life. */
  lemma YearOfTheWalk(c: Contract, on: Day, year: int)
    requires year <= on.year
    ensures Scheduled(c, year) == Filter(LifeTo(c, on), InYear(year))
    ensures Filter(LifeTo(c, on), DueThrough(on, year))
            == Filter(LifeTo(c, on), DueThrough(on, year - 1)) + Filter(Scheduled(c, year), Arrived(on))
    ensures DatesIncrease(Scheduled(c, year)) && Identifies(Scheduled(c, year))
    ensures Starts(Scheduled(c, year)) !! Starts(Filter(LifeTo(c, on), DueThrough(on, year - 1)))
  {
    hide Life, PeriodIndex, Before;
    var life, last := LifeTo(c, on), LastRelevant(c, on.year);
    HorizonGrows(c, year, on.year);
    WindowedScanIsExact(c, year, last);
    LifeIsOrdered(c, c.First(), last);
    LifeIsIdentified(c, c.First(), last);
    DatesToYears(life);
    OneMoreYear(life, on, year);
    FilterKeepsDates(life, InYear(year));
    FilterMembers(life, InYear(year));
    FilterMembers(life, DueThrough(on, year - 1));
  }

  lemma DatesToYears(rows: seq<Row>)
    requires DatesIncrease(rows)
    ensures YearsIncrease(rows)
  {}

  lemma HorizonGrows(c: Contract, y1: int, y2: int)
    requires y1 <= y2
    ensures LastRelevant(c, y1) <= LastRelevant(c, y2)
  {}

  /** `_due_rows`: the walk from the start year to the last year yields exactly the due rows; the
      `seen` test never rejects one. */
  method CollectDueRows(c: Contract, on: Day) returns (rows: seq<Row>)
    requires c.kind == Standard
    ensures rows == Due(c, on)
  {
    hide LifeTo, Scheduled, Starts, Identifies, DatesIncrease, DueThrough, Arrived, Filter;
    var firstYear := c.startDate.year;
    var lastYear := LastYear(c, on);
    var seen: set<Day> := {};
    rows := [];
    NothingBeforeTheStart(c, on);
    var year := firstYear;
    while year <= lastYear
      invariant firstYear <= year <= if firstYear <= lastYear then lastYear + 1 else firstYear
      invariant rows == Filter(LifeTo(c, on), DueThrough(on, year - 1))
      invariant seen == Starts(rows)
    {
      YearOfTheWalk(c, on, year);
      var scheduled := ScheduledRows(c, year, on);
      var kept;
      kept, seen := KeepArrived(scheduled, on, seen);
      StartsConcat(rows, kept);
      rows := rows + kept;
      year := year + 1;
    }
  }

  lemma StartsConcat(a: seq<Row>, b: seq<Row>)
    ensures Starts(a + b) == Starts(a) + Starts(b)
    ensures Starts([]) == {}
  {}

  lemma NothingBeforeTheStart(c: Contract, on: Day)
    ensures forall y :: y < c.startDate.year ==> Filter(LifeTo(c, on), DueThrough(on, y)) == []
    ensures Starts([]) == {}
  {
    hide RowFor, PeriodIndex, InvoiceDate, Life;
    forall y | y < c.startDate.year ensures Filter(LifeTo(c, on), DueThrough(on, y)) == [] {
      LifeMembers(c, c.First(), LastRelevant(c, on.year));
      forall row | row in LifeTo(c, on) ensures !DueThrough(on, y)(row) {
        var i :| c.First() <= i <= LastRelevant(c, on.year) && RowFor(c, i) == Some(row);
        RowDate(c, i);
        NoInvoiceBeforeStart(c, i);
      }
      FilterNone(LifeTo(c, on), DueThrough(on, y));
    }
  }

  // ----- Exactly which periods are due -----

  /** A period is yielded exactly when its invoice date has arrived and does not lie past the
      contract's end year. */
  lemma DueIsExact(c: Contract, on: Day, index: int)
    requires c.InLife(index)
    ensures RowFor(c, index).Some?
    ensures RowFor(c, index).value in Due(c, on)
            <==> !Before(on, InvoiceDate(c, index))
                 && (c.endDate.Some? ==> InvoiceDate(c, index).year <= c.endDate.value.year)
  {
    hide RowFor, PeriodIndex, InvoiceDate, Life;
    CoveredExactlyInLife(c, index);
    RowDate(c, index);
    var row := RowFor(c, index).value;
    FilterMembers(LifeTo(c, on), DueThrough(on, LastYear(c, on)));
    LifeMembers(c, c.First(), LastRelevant(c, on.year));
    if !Before(on, InvoiceDate(c, index)) {
      NotDatedPastTheYear(c, on.year, index);
      assert c.First() <= index <= LastRelevant(c, on.year) && RowFor(c, index) == Some(row);
    }
  }

  lemma DueRowsAreRows(c: Contract, on: Day)
    ensures DatesIncrease(Due(c, on)) && Identifies(Due(c, on))
    ensures forall row :: row in Due(c, on) ==> exists i :: c.InLife(i) && RowFor(c, i) == Some(row)
  {
    hide RowFor, PeriodIndex, InvoiceDate, Life, Before;
    var last := LastRelevant(c, on.year);
    LifeIsOrdered(c, c.First(), last);
    LifeIsIdentified(c, c.First(), last);
    FilterKeepsDates(LifeTo(c, on), DueThrough(on, LastYear(c, on)));
    FilterMembers(LifeTo(c, on), DueThrough(on, LastYear(c, on)));
    LifeMembers(c, c.First(), last);
    forall row | row in Due(c, on) ensures exists i :: c.InLife(i) && RowFor(c, i) == Some(row) {
      var i :| c.First() <= i <= last && RowFor(c, i) == Some(row);
      CoveredExactlyInLife(c, i);
    }
  }

  /** The one period the walk can miss: an arrears contract's last, when it ends in December. */
  predicate LastDecemberArrears(c: Contract, index: int) {
    && c.billingType == Arrears && c.endDate.Some? && index == c.Last()
    && PeriodEnd(index, c.Months()).month == 12
  }

  lemma DatedPastTheEndYear(c: Contract, index: int)
    requires c.InLife(index) && c.endDate.Some?
    ensures InvoiceDate(c, index).year > c.endDate.value.year <==> LastDecemberArrears(c, index)
  {
    hide InvoiceDate, PeriodIndex, PeriodEnd;
    var m, e := c.Months(), AbsMonth(c.endDate.value);
    InvoiceDateShape(c, index);
    IndexOfDay(c.endDate.value, index, m);
    IndexOfDay(c.endDate.value, index + 1, m);
    NextPeriodPastTheYear(index, m, e);
  }

  lemma NextPeriodPastTheYear(index: int, m: nat, e: int)
    requires m == 1 || m == 3 || m == 12
    requires index * m <= e
    ensures PeriodEnd(index, m).month == 12 <==> ((index + 1) * m) % 12 == 0
    ensures (index + 1) * m > e ==> ((index + 1) * m / 12 > e / 12 <==> ((index + 1) * m) % 12 == 0)
  {
    EndMonth((index + 1) * m);
    assert (index + 1) * m == index * m + m;
    if (index + 1) * m > e {
      YearEdge(index + 1, (index + 1) * m, e, m);
    }
  }

  lemma EndMonth(next: int)
    ensures PrevDay(MonthStart(next)).month == 12 <==> next % 12 == 0
  {}

  lemma YearEdge(k: int, next: int, e: int, m: nat)
    requires m == 1 || m == 3 || m == 12
    requires next == k * m && next - m <= e < next
    ensures next / 12 > e / 12 <==> next % 12 == 0
  {}

  /** The gap, exactly: a period whose invoice date has arrived is missed if and only if it is the
      last period of an arrears contract and ends in December. */
  lemma DueGap(c: Contract, on: Day, index: int)
    requires c.InLife(index) && !Before(on, InvoiceDate(c, index))
    ensures RowFor(c, index).Some?
    ensures RowFor(c, index).value !in Due(c, on) <==> LastDecemberArrears(c, index)
  {
    hide RowFor, PeriodIndex, InvoiceDate, Due, PeriodEnd;
    DueIsExact(c, on, index);
    if c.endDate.Some? {
      DatedPastTheEndYear(c, index);
    }
  }

  lemma OnlyPeriodMissed(c: Contract, on: Day)
    requires c.endDate.Some? && LastDecemberArrears(c, c.First())
    ensures Due(c, on) == []
  {
    hide RowFor, InvoiceDate, Due, Before, PeriodIndex, PeriodEnd;
    DueRowsAreRows(c, on);
    if Due(c, on) != [] {
      var row := Due(c, on)[0];
      assert row in Due(c, on);
      var i :| c.InLife(i) && RowFor(c, i) == Some(row);
      DatedPastTheEndYear(c, i);
      DueIsExact(c, on, i);
    }
  }

  /** An arrears contract for December 2025 alone, at 310.00. */
  function DecemberOnly(): Contract {
    ContractRow(1, 1, 1, Standard, Active, Date(2025, 12, 1), Some(Date(2025, 12, 31)), Monthly, 1, Arrears, 30,
                false, [Revision(1, Date(2025, 12, 1), [Line("Cleaning", 31000, 2100)])])
  }

  /** With a single revision of a single line, in force, that line's amount is the agreed one. */
  lemma OnlyRevisionGoverns(c: Contract, r: Revision, line: Line, on: Day)
    requires c.revisions == [r] && r.lines == [line] && InForce(r, on)
    ensures ActiveRevision(c, on) == Some(r) && AgreedAmount(c, on) == RevisionAmount(r) == line.amount
  {
    FilterAll(c.revisions, InForceOn(on));
    assert LineAmounts(r.lines) == [] + [line.amount];
    SumSnoc([], line.amount);
  }

  lemma DecemberRow()
    ensures DecemberOnly().First() == DecemberOnly().Last() == 24311
    ensures FirstRow(DecemberOnly()).periodStart == Date(2025, 12, 1)
    ensures FirstRow(DecemberOnly()).invoiceDate == Date(2026, 1, 1) && FirstRow(DecemberOnly()).amount == 31000
    ensures ActiveRevision(DecemberOnly(), Date(2025, 12, 1)) == Some(DecemberOnly().revisions[0])
  {
    hide Ordinal, PeriodFor, ActiveRevision, AgreedAmount, RowFor, FirstRow, RevisionAmount, InvoiceDate;
    var c := DecemberOnly();
    assert c.First() == c.Last() == 24311;
    FirstPeriodHasARow(c);
    RowStart(c, 24311);
    RowDate(c, 24311);
    InvoiceDateShape(c, 24311);
    OnlyRevisionGoverns(c, c.revisions[0], c.revisions[0].lines[0], Date(2025, 12, 1));
  }

  /** The gap is real: December's invoice of 310.00 is dated 1 January 2026, and its row is not due
      on that or any other date. */
  lemma MissedDecember(on: Day)
    ensures DecemberOnly().InLife(DecemberOnly().First()) && FirstRow(DecemberOnly()).amount == 31000
    ensures FirstRow(DecemberOnly()).invoiceDate == Date(2026, 1, 1)
    ensures Due(DecemberOnly(), on) == []
  {
    hide Due, FirstRow, ActiveRevision;
    DecemberRow();
    EndMonth(24312);
    OnlyPeriodMissed(DecemberOnly(), on);
  }

  /** A later run date never makes fewer rows due. */
  lemma DueGrows(c: Contract, on1: Day, on2: Day)
    requires !Before(on2, on1)
    ensures forall row :: row in Due(c, on1) ==> row in Due(c, on2)
  {
    hide RowFor, PeriodIndex, InvoiceDate, Due;
    DueRowsAreRows(c, on1);
    forall row | row in Due(c, on1) ensures row in Due(c, on2) {
      var i :| c.InLife(i) && RowFor(c, i) == Some(row);
      DueIsExact(c, on1, i);
      DueIsExact(c, on2, i);
    }
  }
}
