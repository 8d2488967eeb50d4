/**
 The contract and its calendar-aligned billing periods: which dates a period covers, when its
 invoice is dated, which revision prices it, and the row the forecast makes of it.
 */
module Billing {
  import opened Calendar
  import opened Money
  import opened Sequences

  datatype BillingPeriod = Monthly | Quarterly | Yearly
  datatype BillingType = Advance | Arrears
  datatype ContractKind = Standard | ExtraWork
  datatype Lifecycle = Draft | Active | Cancelled

  function PeriodsPerYear(p: BillingPeriod): (n: nat)
    ensures 1 <= n && n * MonthsPerPeriod(p) == 12
  {
    match p
    case Monthly => 12
    case Quarterly => 4
    case Yearly => 1
  }

  function MonthsPerPeriod(p: BillingPeriod): (months: nat)
    ensures months == 1 || months == 3 || months == 12
  {
    match p
    case Monthly => 1
    case Quarterly => 3
    case Yearly => 12
  }

  /** `amount` is in cents, `vatPct` in hundredths of a percent. */
  datatype Line = Line(name: string, amount: int, vatPct: int)

  datatype Revision = Revision(id: nat, effectiveFrom: Day, lines: seq<Line>)

  /** `revisions` are the contract's revisions as fetched in resolution order: latest
      `effectiveFrom` first, ties by highest id. */
  datatype ContractRow = ContractRow(
    id: nat,
    company: nat,
    customer: nat,
    kind: ContractKind,
    lifecycle: Lifecycle,
    startDate: Day,
    endDate: Option<Day>,
    billingPeriod: BillingPeriod,
    billingDay: nat,
    billingType: BillingType,
    paymentTermsDays: nat,
    startProration: bool,
    revisions: seq<Revision>)
  {
    /** What the table's constraints and validators, and the ordered fetch, guarantee. */
    predicate Storable() {
      && 1 <= billingDay
      && (endDate.Some? ==> !Before(endDate.value, startDate))
      && InResolutionOrder(revisions)
    }

    function Months(): (months: nat)
      ensures months == 1 || months == 3 || months == 12
    {
      MonthsPerPeriod(billingPeriod)
    }

    function First(): int {
      PeriodIndex(startDate, Months())
    }

    function Last(): int
      requires endDate.Some?
    {
      PeriodIndex(endDate.value, Months())
    }

    predicate InLife(index: int) {
      First() <= index && (endDate.Some? ==> index <= Last())
    }
  }

  type Contract = c: ContractRow | c.Storable()
    witness ContractRow(0, 0, 0, Standard, Draft, Date(1, 1, 1), None, Monthly, 1, Advance, 0, false, [])

  // ----- Revisions -----

  /** `a` takes precedence over `b`: later `effectiveFrom`, or the same and a higher id. */
  predicate Outranks(a: Revision, b: Revision) {
    Before(b.effectiveFrom, a.effectiveFrom) || (a.effectiveFrom == b.effectiveFrom && b.id < a.id)
  }

  predicate InResolutionOrder(revisions: seq<Revision>) {
    forall i, j :: 0 <= i < j < |revisions| ==> Outranks(revisions[i], revisions[j])
  }

  predicate InForce(r: Revision, on: Day) {
    !Before(on, r.effectiveFrom)
  }

  function InForceOn(on: Day): Revision -> bool {
    r => InForce(r, on)
  }

  /** The declarative rule: in force, and outranking every other revision in force. */
  ghost predicate Governs(r: Revision, revisions: seq<Revision>, on: Day) {
    && r in revisions && InForce(r, on)
    && forall s :: s in revisions && InForce(s, on) && s != r ==> Outranks(r, s)
  }

  /** `revisions.active_revision`: filter on the date, then take the first in order. */
  function ActiveRevision(c: Contract, on: Day): Option<Revision> {
    var candidates := Filter(c.revisions, InForceOn(on));
    if candidates == [] then None else Some(candidates[0])
  }

  function LineAmounts(lines: seq<Line>): seq<int> {
    seq(|lines|, i requires 0 <= i < |lines| => lines[i].amount)
  }

  function RevisionAmount(r: Revision): int {
    Sum(LineAmounts(r.lines))
  }

  function AgreedAmount(c: Contract, on: Day): int {
    match ActiveRevision(c, on)
    case None => 0
    case Some(r) => RevisionAmount(r)
  }

  /** The resolution rule picks the lexicographic maximum by (effectiveFrom, id) in force. */
  lemma ActiveRevisionGoverns(c: Contract, on: Day)
    ensures match ActiveRevision(c, on)
            case None => forall r :: r in c.revisions ==> !InForce(r, on)
            case Some(r) => Governs(r, c.revisions, on)
  {
    FilterMembers(c.revisions, InForceOn(on));
    FilterKeepsOrder(c.revisions, on);
    var candidates := Filter(c.revisions, InForceOn(on));
    if candidates == [] {
      forall r | r in c.revisions ensures !InForce(r, on) {
        assert r !in candidates;
      }
    } else {
      assert candidates[0] in candidates;
      forall s | s in c.revisions && InForce(s, on) && s != candidates[0]
        ensures Outranks(candidates[0], s)
      {
        assert s in candidates;
      }
    }
  }

  lemma {:induction false} FilterKeepsOrder(revisions: seq<Revision>, on: Day)
    requires InResolutionOrder(revisions)
    ensures InResolutionOrder(Filter(revisions, InForceOn(on)))
  {
    if revisions != [] {
      var rest := revisions[..|revisions| - 1];
      FilterKeepsOrder(rest, on);
      FilterMembers(rest, InForceOn(on));
      var kept := Filter(rest, InForceOn(on));
      forall i | 0 <= i < |kept| ensures Outranks(kept[i], revisions[|revisions| - 1]) {
        assert kept[i] in kept;
      }
    }
  }

  lemma GovernsIsUnique(r: Revision, s: Revision, revisions: seq<Revision>, on: Day)
    requires Governs(r, revisions, on) && Governs(s, revisions, on)
    ensures r == s
  {}

  lemma FirstInForce(revisions: seq<Revision>, i: nat, on: Day)
    requires i <= |revisions| && Filter(revisions[..i], InForceOn(on)) == []
    ensures i == |revisions| ==> Filter(revisions, InForceOn(on)) == []
    ensures i < |revisions| ==>
              var kept := Filter(revisions, InForceOn(on));
              if InForce(revisions[i], on) then kept != [] && kept[0] == revisions[i]
              else Filter(revisions[..i + 1], InForceOn(on)) == []
  {
    hide Filter, Before;
    if i == |revisions| {
      assert revisions[..i] == revisions;
    } else {
      var head, tail := revisions[..i + 1], revisions[i + 1..];
      assert head == revisions[..i] + [revisions[i]] && revisions == head + tail;
      FilterSnoc(revisions[..i], revisions[i], InForceOn(on));
      FilterConcat(head, tail, InForceOn(on));
    }
  }

  /** By dates and ids alone: the latest revision in effect, ties by highest id, is the active one, and
      its total is agreed. */
  lemma LatestRevisionIsActive(c: Contract, on: Day, r: Revision)
    requires r in c.revisions && Ordinal(r.effectiveFrom) <= Ordinal(on)
    requires forall s :: s in c.revisions && s != r && Ordinal(s.effectiveFrom) <= Ordinal(on) ==>
                           || Ordinal(s.effectiveFrom) < Ordinal(r.effectiveFrom)
                           || (s.effectiveFrom == r.effectiveFrom && s.id < r.id)
    ensures ActiveRevision(c, on) == Some(r) && AgreedAmount(c, on) == RevisionAmount(r)
  {
    hide Ordinal, ActiveRevision, RevisionAmount, Before;
    ActiveRevisionGoverns(c, on);
    OrdinalOrder(on, r.effectiveFrom);
    match ActiveRevision(c, on)
    case None =>
    case Some(s) =>
      OrdinalOrder(on, s.effectiveFrom);
      OrdinalOrder(s.effectiveFrom, r.effectiveFrom);
      OrdinalOrder(r.effectiveFrom, s.effectiveFrom);
  }

  /** Before the first revision takes effect nothing is agreed. */
  lemma NothingAgreedYet(c: Contract, on: Day)
    requires forall r :: r in c.revisions ==> Ordinal(on) < Ordinal(r.effectiveFrom)
    ensures ActiveRevision(c, on) == None && AgreedAmount(c, on) == 0
  {
    hide Ordinal, ActiveRevision, RevisionAmount, Before;
    ActiveRevisionGoverns(c, on);
    if ActiveRevision(c, on).Some? {
      OrdinalOrder(on, ActiveRevision(c, on).value.effectiveFrom);
    }
  }

  /** Which contracts there are: a billing day from 1, an end not before the start, and revisions ordered by
      date and id, latest first, of whatever number. */
  lemma StorableIff(c: ContractRow)
    ensures c.Storable() <==>
              && c.billingDay >= 1
              && (c.endDate.Some? ==> Ordinal(c.startDate) <= Ordinal(c.endDate.value))
              && forall i, j :: 0 <= i < j < |c.revisions| ==>
                   || Ordinal(c.revisions[j].effectiveFrom) < Ordinal(c.revisions[i].effectiveFrom)
                   || (c.revisions[i].effectiveFrom == c.revisions[j].effectiveFrom
                       && c.revisions[j].id < c.revisions[i].id)
  {
    hide Ordinal, Before;
    if c.endDate.Some? {
      OrdinalOrder(c.endDate.value, c.startDate);
    }
    forall i, j | 0 <= i < j < |c.revisions|
      ensures Before(c.revisions[j].effectiveFrom, c.revisions[i].effectiveFrom)
              <==> Ordinal(c.revisions[j].effectiveFrom) < Ordinal(c.revisions[i].effectiveFrom)
    {
      OrdinalOrder(c.revisions[j].effectiveFrom, c.revisions[i].effectiveFrom);
    }
  }

  /** A revision's total is the sum of its lines. */
  lemma RevisionAmountAddsUp(r: Revision, line: Line)
    ensures RevisionAmount(r.(lines := [])) == 0
    ensures RevisionAmount(r.(lines := r.lines + [line])) == RevisionAmount(r) + line.amount
  {
    assert LineAmounts(r.lines + [line]) == LineAmounts(r.lines) + [line.amount];
    SumSnoc(LineAmounts(r.lines), line.amount);
  }

  /** The search loop: the first revision in resolution order that is in force. */
  method AmountForPeriod(c: Contract, on: Day) returns (amount: int)
    ensures amount == AgreedAmount(c, on)
  {
    for i := 0 to |c.revisions|
      invariant Filter(c.revisions[..i], InForceOn(on)) == []
    {
      FirstInForce(c.revisions, i, on);
      if !Before(on, c.revisions[i].effectiveFrom) {
        return RevisionAmount(c.revisions[i]);
      }
    }
    FirstInForce(c.revisions, |c.revisions|, on);
    return 0;
  }

  // ----- Periods -----

  function PeriodIndex(day: Day, months: nat): int
    requires months > 0
  {
    (day.year * 12 + day.month - 1) / months
  }

  function PeriodStart(index: int, months: nat): Day {
    var absolute := index * months;
    Date(absolute / 12, absolute % 12 + 1, 1)
  }

  function PeriodEnd(index: int, months: nat): Day {
    PrevDay(PeriodStart(index + 1, months))
  }

  function AddMonths(day: Day, months: int): Day {
    var absolute := AbsMonth(day) + months;
    var longest := MonthLength(absolute);
    Date(absolute / 12, absolute % 12 + 1, if day.day < longest then day.day else longest)
  }

  function InvoiceDateFor(c: Contract, pStart: Day, pEnd: Day, isFirst: bool): Day {
    var day := if c.billingDay < 28 then c.billingDay else 28;
    var anchor := if c.billingType == Arrears
                  then AddMonths(Date(pEnd.year, pEnd.month, 1), 1)
                  else Date(pStart.year, pStart.month, 1);
    var invoiceDate := Date(anchor.year, anchor.month, day);
    if isFirst && Before(invoiceDate, c.startDate) then c.startDate else invoiceDate
  }

  /** One planned invoice. It falls due the payment terms after its date. */
  datatype Row = Row(
    invoiceDate: Day,
    paymentTermsDays: nat,
    periodStart: Day,
    periodEnd: Day,
    amount: int,
    isProrated: bool,
    coveredDays: nat,
    periodDays: int)
  {
    function DueDate(): Day {
      PlusDays(invoiceDate, paymentTermsDays)
    }
  }

  /** A period clipped to the contract's own life. */
  datatype Clipped = Clipped(pStart: Day, pEnd: Day, coveredDays: nat, periodDays: int)

  function CoveredStart(c: Contract, index: int): Day {
    Later(PeriodStart(index, c.Months()), c.startDate)
  }

  function CoveredEnd(c: Contract, index: int): Day {
    var pEnd := PeriodEnd(index, c.Months());
    if c.endDate.Some? then Earlier(pEnd, c.endDate.value) else pEnd
  }

  function PeriodFor(c: Contract, index: int): Clipped {
    var pStart := PeriodStart(index, c.Months());
    var pEnd := PeriodEnd(index, c.Months());
    var covered := DaysBetween(CoveredStart(c, index), CoveredEnd(c, index)) + 1;
    Clipped(pStart, pEnd, if covered > 0 then covered else 0, DaysBetween(pStart, pEnd) + 1)
  }

  function InvoiceDate(c: Contract, index: int): Day {
    InvoiceDateFor(c, PeriodStart(index, c.Months()), PeriodEnd(index, c.Months()), index == c.First())
  }

  function PeriodAmount(c: Contract, index: int): int {
    var p := PeriodFor(c, index);
    var base := AgreedAmount(c, CoveredStart(c, index));
    if c.startProration then Prorate(base, p.coveredDays, p.periodDays) else base
  }

  function RowFor(c: Contract, index: int): Option<Row> {
    var p := PeriodFor(c, index);
    if p.coveredDays <= 0 then None
    else
      var invoiceDate := InvoiceDate(c, index);
      Some(Row(
             invoiceDate,
             c.paymentTermsDays,
             CoveredStart(c, index),
             CoveredEnd(c, index),
             PeriodAmount(c, index),
             c.startProration && p.coveredDays < p.periodDays,
             p.coveredDays,
             p.periodDays))
  }

  // ----- Periods tile the calendar -----

  lemma IndexOrder(month: int, j: int, months: nat)
    requires months == 1 || months == 3 || months == 12
    ensures j <= month / months <==> j * months <= month
  {}

  lemma IndexOfDay(d: Day, j: int, months: nat)
    requires months == 1 || months == 3 || months == 12
    ensures j <= PeriodIndex(d, months) <==> j * months <= AbsMonth(d)
  {}

  lemma FirstOfMonthOrder(d: Day, month: int)
    ensures !Before(d, MonthStart(month)) <==> month <= AbsMonth(d)
    ensures Before(d, MonthStart(month)) <==> AbsMonth(d) < month
  {}

  /** Every date lies in exactly one period, and a period ends the day before the next begins. */
  lemma PeriodsTileTheCalendar(d: Day, index: int, months: nat)
    requires months == 1 || months == 3 || months == 12
    ensures Ordinal(PeriodEnd(index, months)) + 1 == Ordinal(PeriodStart(index + 1, months))
    ensures !Before(d, PeriodStart(index, months)) <==> index <= PeriodIndex(d, months)
    ensures !Before(PeriodEnd(index, months), d) <==> PeriodIndex(d, months) <= index
  {
    hide Ordinal;
    PrevDayIsOneBack(PeriodStart(index + 1, months));
    IndexOrder(AbsMonth(d), index, months);
    IndexOrder(AbsMonth(d), index + 1, months);
    FirstOfMonthOrder(d, index * months);
    FirstOfMonthOrder(d, (index + 1) * months);
    OrdinalOrder(PeriodEnd(index, months), d);
    OrdinalOrder(d, PeriodStart(index + 1, months));
  }

  /** A monthly contract's periods start in every month, a quarterly one's in January, April, July and
      October, a yearly one's in January, each on the first day. */
  lemma PeriodsStartInTheirMonths(c: Contract, index: int)
    ensures PeriodStart(index, c.Months()).day == 1
    ensures c.billingPeriod == Quarterly ==> PeriodStart(index, c.Months()).month in {1, 4, 7, 10}
    ensures c.billingPeriod == Yearly ==> PeriodStart(index, c.Months()).month == 1
    ensures AbsMonth(PeriodStart(index + 1, c.Months())) - AbsMonth(PeriodStart(index, c.Months()))
            == match c.billingPeriod
               case Monthly => 1
               case Quarterly => 3
               case Yearly => 12
    ensures PeriodsPerYear(c.billingPeriod)
            == match c.billingPeriod
               case Monthly => 12
               case Quarterly => 4
               case Yearly => 1
  {
    hide PeriodStart, MonthStart, AbsMonth;
    var m := c.Months();
    StartsWithAMonth(index, m);
    StartsWithAMonth(index + 1, m);
    MonthOf(index * m);
    MonthOf((index + 1) * m);
    assert (index + 1) * m == index * m + m;
    match c.billingPeriod
    case Monthly =>
    case Quarterly => QuarterMonths(index);
    case Yearly => YearMonths(index);
  }

  lemma QuarterMonths(index: int)
    ensures (index * 3) % 12 in {0, 3, 6, 9}
  {
    assert index * 3 == 12 * (index / 4) + 3 * (index % 4);
  }

  lemma YearMonths(index: int)
    ensures (index * 12) % 12 == 0
  {}

  lemma ClippedInterval(c: Contract, index: int)
    ensures Ordinal(CoveredStart(c, index)) ==
            (var a, b := Ordinal(PeriodStart(index, c.Months())), Ordinal(c.startDate); if a < b then b else a)
    ensures Ordinal(CoveredEnd(c, index)) ==
            (var a := Ordinal(PeriodEnd(index, c.Months()));
             if c.endDate.Some? && Ordinal(c.endDate.value) < a then Ordinal(c.endDate.value) else a)
    ensures Ordinal(PeriodStart(index, c.Months())) <= Ordinal(PeriodEnd(index, c.Months()))
    ensures c.endDate.Some? ==> Ordinal(c.startDate) <= Ordinal(c.endDate.value)
  {
    var pStart, pEnd := PeriodStart(index, c.Months()), PeriodEnd(index, c.Months());
    OrdinalOrder(pStart, c.startDate);
    PeriodsTileTheCalendar(pStart, index, c.Months());
    OrdinalOrder(pEnd, pStart);
    if c.endDate.Some? {
      OrdinalOrder(c.endDate.value, pEnd);
      OrdinalOrder(c.endDate.value, c.startDate);
    }
  }

  lemma PeriodAgainst(d: Day, index: int, months: nat)
    requires months == 1 || months == 3 || months == 12
    ensures Ordinal(PeriodStart(index, months)) <= Ordinal(d) <==> index <= PeriodIndex(d, months)
    ensures Ordinal(d) <= Ordinal(PeriodEnd(index, months)) <==> PeriodIndex(d, months) <= index
  {
    PeriodsTileTheCalendar(d, index, months);
    OrdinalOrder(d, PeriodStart(index, months));
    OrdinalOrder(PeriodEnd(index, months), d);
  }

  /** Coverage is positive exactly for the indexes from the first period to the last. */
  lemma CoveredExactlyInLife(c: Contract, index: int)
    ensures PeriodFor(c, index).coveredDays > 0 <==> c.InLife(index)
    ensures RowFor(c, index).Some? <==> c.InLife(index)
    ensures c.endDate.Some? ==> c.First() <= c.Last()
  {
    hide Ordinal, PeriodStart, PeriodEnd, PeriodIndex, CoveredStart, CoveredEnd, InvoiceDate, PeriodAmount;
    ClippedInterval(c, index);
    PeriodAgainst(c.startDate, index, c.Months());
    if c.endDate.Some? {
      PeriodAgainst(c.endDate.value, index, c.Months());
      IndexMonotone(c.startDate, c.endDate.value, c.Months());
    }
  }

  lemma IndexMonotone(a: Day, b: Day, months: nat)
    requires months == 1 || months == 3 || months == 12
    requires !Before(b, a)
    ensures PeriodIndex(a, months) <= PeriodIndex(b, months)
  {}

  function CoveredDaysThrough(c: Contract, lo: int, hi: int): int
    decreases hi - lo
  {
    if hi < lo then 0 else CoveredDaysThrough(c, lo, hi - 1) + PeriodFor(c, hi).coveredDays
  }

  lemma {:induction false} CoverageTelescopes(c: Contract, hi: int)
    requires c.InLife(hi)
    ensures CoveredDaysThrough(c, c.First(), hi) == DaysBetween(c.startDate, CoveredEnd(c, hi)) + 1
    decreases hi - c.First()
  {
    hide Ordinal, PeriodStart, PeriodEnd, PeriodIndex;
    ClippedInterval(c, hi);
    PeriodAgainst(c.startDate, hi, c.Months());
    CoveredExactlyInLife(c, hi);
    if hi == c.First() {
      assert CoveredDaysThrough(c, c.First(), hi - 1) == 0;
    } else {
      CoverageTelescopes(c, hi - 1);
      ClippedInterval(c, hi - 1);
      PeriodsTileTheCalendar(c.startDate, hi - 1, c.Months());
      PeriodAgainst(c.startDate, hi - 1, c.Months());
      if c.endDate.Some? {
        PeriodAgainst(c.endDate.value, hi - 1, c.Months());
      }
    }
  }

  /** Days are conserved: the covered days of all periods add up to the length of the contract. */
  lemma CoveredDaysAreConserved(c: Contract)
    requires c.endDate.Some?
    ensures CoveredDaysThrough(c, c.First(), c.Last()) == DaysBetween(c.startDate, c.endDate.value) + 1
  {
    CoveredExactlyInLife(c, c.Last());
    CoverageTelescopes(c, c.Last());
    ClippedInterval(c, c.Last());
    PeriodAgainst(c.endDate.value, c.Last(), c.Months());
  }

  // ----- Invoice dates -----

  /** The month the invoice is anchored in: the period's first month, or the month after it. */
  function AnchorMonth(c: Contract, index: int): int {
    if c.billingType == Arrears then (index + 1) * c.Months() else index * c.Months()
  }

  /** Where the invoice date falls, and that only an advance first invoice is ever clamped. */
  lemma InvoiceDateShape(c: Contract, index: int)
    ensures var d := InvoiceDate(c, index);
            || d == Date(AnchorMonth(c, index) / 12, AnchorMonth(c, index) % 12 + 1,
                         if c.billingDay < 28 then c.billingDay else 28)
            || (d == c.startDate && index == c.First() && c.billingType == Advance)
    ensures index * c.Months() <= AnchorMonth(c, index) <= AbsMonth(InvoiceDate(c, index))
    ensures AbsMonth(InvoiceDate(c, index)) <= (index + 1) * c.Months()
    ensures AbsMonth(InvoiceDate(c, index)) < AnchorMonth(c, index + 1)
    ensures index == c.First() ==> !Before(InvoiceDate(c, index), c.startDate)
  {
    var m := c.Months();
    assert (index + 1) * m == index * m + m && (index + 2) * m == index * m + 2 * m;
    var pEnd := PeriodEnd(index, m);
    assert AbsMonth(pEnd) == (index + 1) * m - 1;
    assert AbsMonth(Date(pEnd.year, pEnd.month, 1)) == AbsMonth(pEnd);
    if index == c.First() {
      IndexOrder(AbsMonth(c.startDate), index, m);
      IndexOrder(AbsMonth(c.startDate), index + 1, m);
    }
  }

  /** The invoice date, exactly: the billing day, at most the 28th, of the period's first month
      (advance) or of the month after it (arrears), or the start date when that is later. */
  lemma InvoiceDateIsExact(c: Contract, index: int)
    requires c.First() <= index
    ensures var anchor := if c.billingType == Arrears then (index + 1) * c.Months() else index * c.Months();
            var planned := Date(anchor / 12, anchor % 12 + 1, if c.billingDay < 28 then c.billingDay else 28);
            InvoiceDate(c, index) == if Ordinal(planned) < Ordinal(c.startDate) then c.startDate else planned
  {
    hide Ordinal;
    var m := c.Months();
    var anchor := AnchorMonth(c, index);
    var planned := Date(anchor / 12, anchor % 12 + 1, if c.billingDay < 28 then c.billingDay else 28);
    PlannedDate(c, index);
    OrdinalOrder(planned, c.startDate);
    IndexOfDay(c.startDate, c.First() + 1, m);
    if index > c.First() {
      IndexMonths(c.First() + 1, index, m);
    }
  }

  lemma IndexMonths(i: int, j: int, m: nat)
    requires i <= j
    ensures i * m <= j * m
  {}

  /** What the code computes before the clamp. */
  lemma PlannedDate(c: Contract, index: int)
    ensures var anchor := AnchorMonth(c, index);
            var planned := Date(anchor / 12, anchor % 12 + 1, if c.billingDay < 28 then c.billingDay else 28);
            InvoiceDate(c, index) == if index == c.First() && Before(planned, c.startDate) then c.startDate else planned
  {
    hide Before, PeriodIndex, PeriodStart, PrevDay, AddMonths;
    StartsWithAMonth(index, c.Months());
    StartsWithAMonth(index + 1, c.Months());
    MonthAfter((index + 1) * c.Months());
  }

  /** The day before a month, brought to the first and moved on by a month, is that month's first. */
  lemma MonthAfter(month: int)
    ensures var last := PrevDay(MonthStart(month));
            AddMonths(Date(last.year, last.month, 1), 1) == MonthStart(month)
  {
    hide MonthStart, PrevDay, MonthLength;
    MonthOf(month);
    var last := PrevDay(MonthStart(month));
    LastOfMonth(MonthStart(month));
    assert AbsMonth(Date(last.year, last.month, 1)) == month - 1;
    FirstOfItsMonth(month);
  }

  lemma FirstOfItsMonth(month: int)
    ensures MonthStart(month) == Date(month / 12, month % 12 + 1, 1) && MonthLength(month) >= 28
  {}

  /** Adding months keeps the day, or takes the last one of a shorter month. */
  lemma AddMonthsIsExact(day: Day, months: int)
    ensures AbsMonth(AddMonths(day, months)) == AbsMonth(day) + months
    ensures AddMonths(day, months).day == day.day
            || (AddMonths(day, months).day < day.day
                && Ordinal(AddMonths(day, months)) + 1 == Ordinal(MonthStart(AbsMonth(day) + months + 1)))
  {
    hide Ordinal;
    DayInItsMonth(AddMonths(day, months));
    MonthStep(AbsMonth(day) + months);
  }

  /** Invoice dates strictly increase with the period, and none precedes the contract. */
  lemma {:induction false} InvoiceDatesIncrease(c: Contract, i: int, j: int)
    requires c.First() <= i < j
    ensures Before(InvoiceDate(c, i), InvoiceDate(c, j))
    ensures !Before(InvoiceDate(c, i), c.startDate)
    decreases j - c.First()
  {
    hide InvoiceDate, AnchorMonth, PeriodIndex;
    InvoiceDateShape(c, j - 1);
    InvoiceDateShape(c, j);
    if i < j - 1 {
      InvoiceDatesIncrease(c, i, j - 1);
    } else if c.First() < i {
      InvoiceDatesIncrease(c, c.First(), i);
    } else {
      InvoiceDateShape(c, i);
    }
  }

  lemma NoInvoiceBeforeStart(c: Contract, i: int)
    requires c.First() <= i
    ensures !Before(InvoiceDate(c, i), c.startDate)
  {
    InvoiceDatesIncrease(c, i, i + 1);
  }

  // ----- Proration over a whole life -----

  /** Only the first and the last period can be partly covered. */
  lemma OnlyTheEndsArePartial(c: Contract, index: int)
    requires c.InLife(index)
    ensures 0 < PeriodFor(c, index).coveredDays <= PeriodFor(c, index).periodDays <= 366
    ensures index != c.First() && (c.endDate.Some? ==> index != c.Last())
            ==> PeriodFor(c, index).coveredDays == PeriodFor(c, index).periodDays
  {
    hide Ordinal, PeriodStart, PeriodEnd, PeriodIndex;
    ClippedInterval(c, index);
    CoveredExactlyInLife(c, index);
    PeriodLength(index, c.Months());
    PeriodAgainst(c.startDate, index - 1, c.Months());
    PeriodsTileTheCalendar(c.startDate, index - 1, c.Months());
    if c.endDate.Some? {
      PeriodAgainst(c.endDate.value, index + 1, c.Months());
      PeriodsTileTheCalendar(c.endDate.value, index, c.Months());
    }
  }

  /** Every field of a row, by day numbers: the period clipped to the contract's life, its length, and
      the agreed amount, in part exactly when proration is on and the period is not fully covered. */
  lemma RowIsExact(c: Contract, index: int)
    requires c.InLife(index)
    ensures RowFor(c, index).Some?
    ensures var row := RowFor(c, index).value;
            var from := Ordinal(MonthStart(index * c.Months()));
            var next := Ordinal(MonthStart((index + 1) * c.Months()));
            && Ordinal(row.periodStart) == (if from < Ordinal(c.startDate) then Ordinal(c.startDate) else from)
            && Ordinal(row.periodEnd)
               == (if c.endDate.Some? && Ordinal(c.endDate.value) < next then Ordinal(c.endDate.value) else next - 1)
            && row.coveredDays == Ordinal(row.periodEnd) - Ordinal(row.periodStart) + 1
            && row.periodDays == next - from
            && (row.isProrated <==> c.startProration && row.coveredDays < row.periodDays)
            && (!row.isProrated ==> row.amount == AgreedAmount(c, row.periodStart))
            && (row.isProrated ==>
                  row.periodDays > 0
                  && NearestTiesAway(row.amount, AgreedAmount(c, row.periodStart) * row.coveredDays, row.periodDays))
  {
    hide Ordinal, PeriodStart, PeriodEnd, PeriodIndex, CoveredStart, CoveredEnd, InvoiceDate, AgreedAmount, RoundHalfUp,
         NearestTiesAway;
    var m := c.Months();
    CoveredExactlyInLife(c, index);
    OnlyTheEndsArePartial(c, index);
    ClippedInterval(c, index);
    StartsWithAMonth(index, m);
    StartsWithAMonth(index + 1, m);
    PeriodsTileTheCalendar(c.startDate, index, m);
    var p, base := PeriodFor(c, index), AgreedAmount(c, CoveredStart(c, index));
    HalfUpIsNearest(RoundHalfUp(base * p.coveredDays, p.periodDays), base * p.coveredDays, p.periodDays);
  }

  lemma PeriodLength(index: int, months: nat)
    requires months == 1 || months == 3 || months == 12
    ensures 28 <= DaysBetween(PeriodStart(index, months), PeriodEnd(index, months)) + 1 <= 366
  {
    hide Ordinal, PrevDay, PeriodStart, MonthStart;
    PrevDayIsOneBack(PeriodStart(index + 1, months));
    StartsWithAMonth(index, months);
    StartsWithAMonth(index + 1, months);
    assert (index + 1) * months == index * months + months;
    if months == 12 {
      WholeYear(index);
    } else {
      MonthsLength(index * months, months);
    }
  }

  lemma StartsWithAMonth(index: int, months: nat)
    ensures PeriodStart(index, months) == MonthStart(index * months)
  {}

  lemma WholeYear(y: int)
    ensures 365 <= Ordinal(MonthStart(y * 12 + 12)) - Ordinal(MonthStart(y * 12)) <= 366
  {
    hide DaysBeforeYear;
    assert (y * 12) / 12 == y && (y * 12 + 12) / 12 == y + 1;
    YearLength(y);
  }

  lemma MonthsLength(m: int, months: nat)
    requires months == 1 || months == 3
    ensures 28 <= Ordinal(MonthStart(m + months)) - Ordinal(MonthStart(m)) <= 93
  {
    hide Ordinal;
    MonthStep(m);
    MonthStep(m + 1);
    MonthStep(m + 2);
  }

  // ----- The amounts as the code rounds them -----

  /** No revision's total reaches 10^25 cents, so that every product the code forms is exact. */
  predicate AmountsFit(c: Contract) {
    forall r :: r in c.revisions ==> Abs(RevisionAmount(r)) < AMOUNT_LIMIT
  }

  lemma AgreedAmountFits(c: Contract, on: Day)
    requires AmountsFit(c)
    ensures Abs(AgreedAmount(c, on)) < AMOUNT_LIMIT
  {
    hide RevisionAmount, ActiveRevision;
    ActiveRevisionGoverns(c, on);
  }

  /** A period's amount with both of the code's roundings: at 28 digits, then to the cent. */
  function ComputedAmount(c: Contract, index: int): int {
    var p := PeriodFor(c, index);
    var base := AgreedAmount(c, CoveredStart(c, index));
    if c.startProration && 0 < p.coveredDays < p.periodDays then DivideThenQuantize(base * p.coveredDays, p.periodDays)
    else base
  }

  lemma PeriodAmountAsComputed(c: Contract, index: int)
    requires c.InLife(index) && AmountsFit(c)
    ensures PeriodAmount(c, index) == ComputedAmount(c, index)
  {
    hide AmountsFit, AgreedAmount, PeriodFor, CoveredStart, DivideThenQuantize, RoundHalfUp;
    var p, base := PeriodFor(c, index), AgreedAmount(c, CoveredStart(c, index));
    OnlyTheEndsArePartial(c, index);
    AgreedAmountFits(c, CoveredStart(c, index));
    if p.coveredDays < p.periodDays {
      ProrateAsComputed(base, p.coveredDays, p.periodDays);
    }
  }

  lemma MonthlyAmountAsComputed(c: Contract, today: Day)
    requires AmountsFit(c)
    ensures DivideThenQuantize(AgreedAmount(c, today), c.Months()) == RoundHalfUp(AgreedAmount(c, today), c.Months())
  {
    hide AmountsFit, AgreedAmount, DivideThenQuantize, RoundHalfUp;
    AgreedAmountFits(c, today);
    DoubleRoundingIsHarmless(AgreedAmount(c, today), c.Months());
  }

  function TotalBilled(c: Contract, lo: int, hi: int): int
    decreases hi - lo
  {
    if hi < lo then 0 else TotalBilled(c, lo, hi - 1) + PeriodAmount(c, hi)
  }

  /** The period's money with no rounding at all. */
  function ExactAmount(c: Contract, index: int): real {
    var p := PeriodFor(c, index);
    var base := AgreedAmount(c, CoveredStart(c, index));
    if c.startProration then Share(base, p.coveredDays, p.periodDays) else base as real
  }

  function Share(amount: int, coveredDays: int, periodDays: int): real {
    if periodDays <= 0 then amount as real else amount as real * coveredDays as real / periodDays as real
  }

  function ExactTotal(c: Contract, lo: int, hi: int): real
    decreases hi - lo
  {
    if hi < lo then 0.0 else ExactTotal(c, lo, hi - 1) + ExactAmount(c, hi)
  }

  /** The exact amounts really are exact: the agreed amount's share of the covered days, added up. */
  lemma ExactAmountIsExact(c: Contract, lo: int, index: int)
    requires c.InLife(index) && lo <= index
    ensures RowFor(c, index).Some?
    ensures var row := RowFor(c, index).value;
            var agreed := AgreedAmount(c, row.periodStart) as real;
            if c.startProration then ExactAmount(c, index) * row.periodDays as real == agreed * row.coveredDays as real
            else ExactAmount(c, index) == agreed
    ensures ExactTotal(c, lo, index) == ExactTotal(c, lo, index - 1) + ExactAmount(c, index)
    ensures TotalBilled(c, lo, index) == TotalBilled(c, lo, index - 1) + RowFor(c, index).value.amount
    ensures ExactTotal(c, lo, lo - 1) == 0.0 && TotalBilled(c, lo, lo - 1) == 0
  {
    hide Ordinal, PeriodFor, PeriodStart, PeriodIndex, AgreedAmount, InvoiceDate, Prorate, CoveredStart, CoveredEnd;
    CoveredExactlyInLife(c, index);
    OnlyTheEndsArePartial(c, index);
    var p, base := PeriodFor(c, index), AgreedAmount(c, CoveredStart(c, index));
    ShareTimesPeriod(base, p.coveredDays, p.periodDays);
  }

  lemma ShareTimesPeriod(base: int, covered: int, period: int)
    requires period > 0
    ensures Share(base, covered, period) * period as real == base as real * covered as real
  {}

  lemma HalfCent(n: int, d: int)
    requires d > 0
    ensures var e := RoundHalfUp(n, d) as real - n as real / d as real; -0.5 <= e <= 0.5
  {}

  lemma PeriodRounding(c: Contract, index: int)
    requires c.InLife(index)
    ensures -0.5 <= PeriodAmount(c, index) as real - ExactAmount(c, index) <= 0.5
    ensures index != c.First() && (c.endDate.Some? ==> index != c.Last())
            ==> PeriodAmount(c, index) as real == ExactAmount(c, index)
  {
    hide Ordinal, PeriodFor, PeriodStart, AgreedAmount, Prorate, Share;
    OnlyTheEndsArePartial(c, index);
    var p := PeriodFor(c, index);
    ProrateError(AgreedAmount(c, CoveredStart(c, index)), p.coveredDays, p.periodDays);
  }

  lemma ProrateError(base: int, covered: nat, period: nat)
    requires 0 < covered <= period
    ensures -0.5 <= Prorate(base, covered, period) as real - Share(base, covered, period) <= 0.5
    ensures covered == period ==> Prorate(base, covered, period) as real == Share(base, covered, period)
  {
    if covered < period {
      HalfCent(base * covered, period);
      assert (base * covered) as real == base as real * covered as real;
    }
  }

  lemma {:induction false} RoundingStaysBounded(c: Contract, hi: int)
    requires c.First() <= hi && (c.endDate.Some? ==> hi < c.Last())
    ensures -0.5 <= TotalBilled(c, c.First(), hi) as real - ExactTotal(c, c.First(), hi) <= 0.5
    decreases hi - c.First()
  {
    hide PeriodAmount, ExactAmount, PeriodIndex;
    PeriodRounding(c, hi);
    if c.First() < hi {
      RoundingStaysBounded(c, hi - 1);
    } else {
      assert TotalBilled(c, c.First(), hi - 1) == 0 && ExactTotal(c, c.First(), hi - 1) == 0.0;
    }
  }

  /** However long the contract runs, everything billed differs from the exact rational total by
      at most one cent. */
  lemma LifeLongRoundingBound(c: Contract, hi: int)
    requires c.InLife(hi)
    ensures -1.0 <= TotalBilled(c, c.First(), hi) as real - ExactTotal(c, c.First(), hi) <= 1.0
  {
    hide PeriodAmount, ExactAmount, PeriodIndex;
    PeriodRounding(c, hi);
    if c.First() < hi {
      RoundingStaysBounded(c, hi - 1);
    } else {
      assert TotalBilled(c, c.First(), hi - 1) == 0 && ExactTotal(c, c.First(), hi - 1) == 0.0;
    }
  }
}
