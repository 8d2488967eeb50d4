/**
 Turning due rows into draft invoices. The claim row, unique per contract and period start, is
 what makes a second run a no-op: a refused claim rolls the whole savepoint back.
 */
module Generation {
  import opened Calendar
  import opened Money
  import opened Sequences
  import opened Billing
  import opened Forecasting
  import opened DueRows

  // ----- One invoice -----

  datatype InvoiceStatus = DraftStatus | SentStatus

  datatype InvoiceLine = InvoiceLine(
    ordering: nat, description: string, unitPrice: int, vatPct: int, subtotal: int, vat: int, total: int)

  datatype Invoice = Invoice(
    company: nat, customer: nat, status: InvoiceStatus, number: Option<string>,
    periodYear: int, periodMonth: int, createdBy: Option<nat>,
    lines: seq<InvoiceLine>, subtotal: int, vat: int, total: int)

  function BillLine(line: Line, ordering: nat): InvoiceLine {
    var vat := RoundHalfUp(line.amount * line.vatPct, 10000);
    InvoiceLine(ordering, line.name, line.amount, line.vatPct, line.amount, vat, line.amount + vat)
  }

  function BillLines(lines: seq<Line>): (billed: seq<InvoiceLine>)
    ensures |billed| == |lines|
  {
    seq(|lines|, i requires 0 <= i < |lines| => BillLine(lines[i], i))
  }

  function Subtotals(lines: seq<InvoiceLine>): seq<int> {
    seq(|lines|, i requires 0 <= i < |lines| => lines[i].subtotal)
  }

  function Vats(lines: seq<InvoiceLine>): seq<int> {
    seq(|lines|, i requires 0 <= i < |lines| => lines[i].vat)
  }

  function Totals(lines: seq<InvoiceLine>): seq<int> {
    seq(|lines|, i requires 0 <= i < |lines| => lines[i].total)
  }

  /** The finished draft: one line per contract line of the revision, and the recomputed totals. */
  function DraftFor(c: Contract, revision: Revision, row: Row, author: Option<nat>): Invoice {
    var lines := BillLines(revision.lines);
    Invoice(c.company, c.customer, DraftStatus, None, row.periodStart.year, row.periodStart.month, author,
            lines, Sum(Subtotals(lines)), Sum(Vats(lines)), Sum(Totals(lines)))
  }

  lemma {:induction false} TotalsAddUp(lines: seq<Line>)
    ensures var billed := BillLines(lines);
            && Sum(Subtotals(billed)) == Sum(LineAmounts(lines))
            && Sum(Totals(billed)) == Sum(Subtotals(billed)) + Sum(Vats(billed))
  {
    if lines != [] {
      var rest, x := lines[..|lines| - 1], |lines| - 1;
      TotalsAddUp(rest);
      var billed, line := BillLines(rest), BillLine(lines[x], x);
      assert BillLines(lines) == billed + [line];
      assert LineAmounts(lines) == LineAmounts(rest) + [lines[x].amount];
      assert Subtotals(billed + [line]) == Subtotals(billed) + [line.subtotal];
      assert Vats(billed + [line]) == Vats(billed) + [line.vat];
      assert Totals(billed + [line]) == Totals(billed) + [line.total];
      SumSnoc(LineAmounts(rest), lines[x].amount);
      SumSnoc(Subtotals(billed), line.subtotal);
      SumSnoc(Vats(billed), line.vat);
      SumSnoc(Totals(billed), line.total);
    }
  }

  /** A line's VAT is the nearest cent to its exact value, ties away from zero, and no other is. */
  lemma LineVatIsNearest(line: Line, ordering: nat, vat: int)
    ensures vat == BillLine(line, ordering).vat <==> NearestTiesAway(vat, line.amount * line.vatPct, 10000)
  {
    HalfUpIsNearest(vat, line.amount * line.vatPct, 10000);
  }

  /** The lines' VAT before any rounding, in hundredths of a percent of a cent. */
  function ExactVat(lines: seq<Line>): int {
    if lines == [] then 0
    else ExactVat(lines[..|lines| - 1]) + lines[|lines| - 1].amount * lines[|lines| - 1].vatPct
  }

  /** The VAT of a whole invoice is off by at most half a cent per line. */
  lemma {:induction false} VatWithinHalfACentPerLine(lines: seq<Line>)
    ensures 2 * Abs(10000 * Sum(Vats(BillLines(lines))) - ExactVat(lines)) <= 10000 * |lines|
  {
    hide RoundHalfUp;
    if lines == [] {
      assert Vats(BillLines(lines)) == [];
    } else {
      var rest, line := lines[..|lines| - 1], lines[|lines| - 1];
      VatWithinHalfACentPerLine(rest);
      var vat := BillLine(line, |rest|).vat;
      assert Vats(BillLines(lines)) == Vats(BillLines(rest)) + [vat];
      SumSnoc(Vats(BillLines(rest)), vat);
      LineVatIsNearest(line, |rest|, vat);
    }
  }

  lemma FullWhenSlightlyShort(base: int, covered: nat, period: nat)
    requires 0 < covered < period
    ensures RoundHalfUp(base * covered, period) == base <==> 2 * Abs(base) * (period - covered) <= period
  {
    var a: nat := Abs(base);
    assert base * covered == (if base < 0 then -(a * covered) else a * covered);
    MulOrder(0, covered, a);
    NearlyWhole(a, covered, period);
    if a * covered == 0 {
      MulOrder(1, covered, a);
    }
  }

  lemma NearlyWhole(a: nat, covered: nat, period: nat)
    requires 0 < covered < period
    ensures RoundHalfUp(a * covered, period) == a <==> 2 * a * (period - covered) <= period
  {
    var x, whole := a * covered, a * period;
    MulOrder(covered, period, a);
    HalfUpBounds(x, period);
    assert 2 * a * (period - covered) == 2 * whole - 2 * x;
    assert (2 * a - 1) * period == 2 * whole - period && (2 * a + 1) * period == 2 * whole + period;
    if 2 * whole - period <= 2 * x {
      HalfUpUnique(a, x, period);
    }
  }

  /** Forecast and invoice agree: the lines' net total is the row's amount on every row that is
      not prorated. On a prorated row the generator still bills in full, so they agree exactly
      when the uncovered days are worth at most half a cent. */
  lemma InvoiceAgainstForecast(c: Contract, index: int, author: Option<nat>)
    requires RowFor(c, index).Some?
    requires ActiveRevision(c, RowFor(c, index).value.periodStart).Some?
    ensures var row := RowFor(c, index).value;
            var revision := ActiveRevision(c, row.periodStart).value;
            var invoice := DraftFor(c, revision, row, author);
            && invoice.subtotal == RevisionAmount(revision)
            && invoice.total == invoice.subtotal + invoice.vat
            && (invoice.subtotal == row.amount
                <==> !row.isProrated
                     || 2 * Abs(RevisionAmount(revision)) * (row.periodDays - row.coveredDays) <= row.periodDays)
  {
    hide PeriodFor, CoveredStart, InvoiceDate, ActiveRevision, PeriodIndex;
    var row := RowFor(c, index).value;
    var revision := ActiveRevision(c, row.periodStart).value;
    TotalsAddUp(revision.lines);
    CoveredExactlyInLife(c, index);
    OnlyTheEndsArePartial(c, index);
    if row.isProrated {
      FullWhenSlightlyShort(RevisionAmount(revision), row.coveredDays, row.periodDays);
    }
  }

  /** A prorated monthly contract that starts on 12 January 2026, at 310.00. */
  function MidJanuary(): Contract {
    ContractRow(1, 1, 1, Standard, Active, Date(2026, 1, 12), None, Monthly, 1, Advance, 30,
                true, [Revision(1, Date(2026, 1, 12), [Line("Cleaning", 31000, 2100)])])
  }

  lemma PartOfJanuary(c: Contract)
    requires c.startDate == Date(2026, 1, 12) && c.endDate == None && c.billingPeriod == Monthly
    ensures c.First() == 24312 && CoveredStart(c, 24312) == Date(2026, 1, 12)
    ensures PeriodFor(c, 24312).coveredDays == 20 && PeriodFor(c, 24312).periodDays == 31
  {
    hide PrevDay, DaysBetween;
    LastOfJanuary();
    DaysOfJanuary();
    var m := c.Months();
    assert PeriodStart(24312, m) == Date(2026, 1, 1) && PeriodStart(24313, m) == Date(2026, 2, 1);
  }

  lemma LastOfJanuary()
    ensures PrevDay(Date(2026, 2, 1)) == Date(2026, 1, 31)
  {}

  lemma DaysOfJanuary()
    ensures DaysBetween(Date(2026, 1, 12), Date(2026, 1, 31)) == 19
    ensures DaysBetween(Date(2026, 1, 1), Date(2026, 1, 31)) == 30
  {
    hide DaysBeforeYear, DaysBeforeMonth;
  }

  /** The difference is real: the forecast plans 200.00 for the 20 of 31 days, the draft bills 310.00. */
  lemma BilledInFull(author: Option<nat>)
    ensures MidJanuary().InLife(MidJanuary().First()) && Billable(MidJanuary(), FirstRow(MidJanuary()))
    ensures FirstRow(MidJanuary()).amount == 20000
    ensures InvoiceFor(MidJanuary(), FirstRow(MidJanuary()), author).subtotal == 31000
  {
    hide PeriodFor, ActiveRevision, AgreedAmount, RowFor, FirstRow, RevisionAmount, InvoiceDate, CoveredStart;
    var c := MidJanuary();
    PartOfJanuary(c);
    FirstPeriodHasARow(c);
    RowStart(c, 24312);
    RowDate(c, 24312);
    OnlyRevisionGoverns(c, c.revisions[0], c.revisions[0].lines[0], Date(2026, 1, 12));
    InvoiceAgainstForecast(c, 24312, author);
  }

  // ----- The books -----

  datatype ClaimKey = ClaimKey(contract: nat, periodStart: Day)

  datatype Claim = Claim(invoice: nat, revision: nat, periodEnd: Day, invoiceDate: Day)

  /** The tables the generator writes: the drafts raised from contracts and the claims on them. A
      map key is the table's unique constraint; ids are drawn from a sequence and never reused. */
  datatype Books = Books(invoices: map<nat, Invoice>, claims: map<ClaimKey, Claim>, nextId: nat)

  ghost predicate Claims(b: Books, k: ClaimKey, id: nat) {
    k in b.claims && b.claims[k].invoice == id
  }

  /** Claims and drafts are in bijection: no draft without its claim, none claimed twice. */
  ghost predicate Consistent(b: Books) {
    && (forall k :: k in b.claims ==> b.claims[k].invoice in b.invoices)
    && (forall j, k, id :: Claims(b, j, id) && Claims(b, k, id) ==> j == k)
    && (forall id :: id in b.invoices ==> id < b.nextId && exists k :: Claims(b, k, id))
  }

  /** Committing a draft together with its claim. */
  function Record(b: Books, key: ClaimKey, claim: Claim, invoice: Invoice): Books {
    b.(invoices := b.invoices[claim.invoice := invoice], claims := b.claims[key := claim])
  }

  function KeyOf(c: Contract, row: Row): ClaimKey {
    ClaimKey(c.id, row.periodStart)
  }

  predicate Billable(c: Contract, row: Row) {
    ActiveRevision(c, row.periodStart).Some? && ActiveRevision(c, row.periodStart).value.lines != []
  }

  function ClaimFor(c: Contract, row: Row, invoice: nat): Claim
    requires Billable(c, row)
  {
    Claim(invoice, ActiveRevision(c, row.periodStart).value.id, row.periodEnd, row.invoiceDate)
  }

  function InvoiceFor(c: Contract, row: Row, author: Option<nat>): Invoice
    requires Billable(c, row)
  {
    DraftFor(c, ActiveRevision(c, row.periodStart).value, row, author)
  }

  function Post(b: Books, c: Contract, row: Row, author: Option<nat>, id: nat): Books
    requires Billable(c, row)
  {
    Record(b, KeyOf(c, row), ClaimFor(c, row, id), InvoiceFor(c, row, author))
  }

  // ----- What the books say, with the invoice ids looked through -----

  datatype Entry = Entry(invoice: Invoice, revision: nat, periodEnd: Day, invoiceDate: Day)

  function EntryFor(c: Contract, row: Row, author: Option<nat>): Entry
    requires Billable(c, row)
  {
    Entry(InvoiceFor(c, row, author), ActiveRevision(c, row.periodStart).value.id, row.periodEnd, row.invoiceDate)
  }

  ghost function View(b: Books): map<ClaimKey, Entry>
    requires Consistent(b)
  {
    map k | k in b.claims :: EntryOf(b.claims[k], b.invoices[b.claims[k].invoice])
  }

  function EntryOf(claim: Claim, invoice: Invoice): Entry {
    Entry(invoice, claim.revision, claim.periodEnd, claim.invoiceDate)
  }

  /** What a list of rows would be billed as. */
  function BillsOf(c: Contract, rows: seq<Row>, author: Option<nat>): map<ClaimKey, Entry> {
    if rows == [] then map[]
    else
      var earlier, row := BillsOf(c, rows[..|rows| - 1], author), rows[|rows| - 1];
      if Billable(c, row) then earlier[KeyOf(c, row) := EntryFor(c, row, author)] else earlier
  }

  lemma RecordKeepsConsistent(b: Books, key: ClaimKey, claim: Claim, invoice: Invoice)
    requires Consistent(b) && key !in b.claims && claim.invoice !in b.invoices && claim.invoice < b.nextId
    ensures Consistent(Record(b, key, claim, invoice))
  {
    var b' := Record(b, key, claim, invoice);
    forall id | id in b'.invoices ensures exists k :: Claims(b', k, id) {
      if id == claim.invoice {
        assert Claims(b', key, id);
      } else {
        var k :| Claims(b, k, id);
        assert Claims(b', k, id);
      }
    }
    forall j, k, id | Claims(b', j, id) && Claims(b', k, id) ensures j == k {
      if j != key && k != key {
        assert Claims(b, j, id) && Claims(b, k, id);
      }
    }
  }

  lemma RecordView(b: Books, key: ClaimKey, claim: Claim, invoice: Invoice)
    requires Consistent(b) && key !in b.claims && claim.invoice !in b.invoices
    requires Consistent(Record(b, key, claim, invoice))
    ensures View(Record(b, key, claim, invoice)) == View(b)[key := EntryOf(claim, invoice)]
  {
    hide Claims, EntryOf;
  }

  lemma PostKeepsConsistent(b: Books, c: Contract, row: Row, author: Option<nat>, id: nat)
    requires Consistent(b) && Billable(c, row)
    requires id !in b.invoices && id < b.nextId && KeyOf(c, row) !in b.claims
    ensures Consistent(Post(b, c, row, author, id))
    ensures View(Post(b, c, row, author, id)) == View(b)[KeyOf(c, row) := EntryFor(c, row, author)]
  {
    hide Billable, Consistent, View, ActiveRevision, DraftFor;
    RecordKeepsConsistent(b, KeyOf(c, row), ClaimFor(c, row, id), InvoiceFor(c, row, author));
    RecordView(b, KeyOf(c, row), ClaimFor(c, row, id), InvoiceFor(c, row, author));
  }

  // ----- One run over the due rows -----

  datatype Run = Run(books: Books, created: seq<nat>, skippedExisting: nat, skippedNoRevision: nat)

  function RunRow(r: Run, c: Contract, row: Row, author: Option<nat>): Run {
    if !Billable(c, row) then r.(skippedNoRevision := r.skippedNoRevision + 1)
    else
      var id := r.books.nextId;
      var drawn := r.books.(nextId := id + 1);
      if KeyOf(c, row) in drawn.claims then r.(books := drawn, skippedExisting := r.skippedExisting + 1)
      else r.(books := Post(drawn, c, row, author, id), created := r.created + [id])
  }

  function RunRows(b: Books, c: Contract, rows: seq<Row>, author: Option<nat>): Run {
    if rows == [] then Run(b, [], 0, 0)
    else RunRow(RunRows(b, c, rows[..|rows| - 1], author), c, rows[|rows| - 1], author)
  }

  ghost predicate Explains(c: Contract, row: Row, author: Option<nat>, k: ClaimKey, e: Entry) {
    Billable(c, row) && KeyOf(c, row) == k && EntryFor(c, row, author) == e
  }

  lemma {:induction false} BillsOfMembers(c: Contract, rows: seq<Row>, author: Option<nat>)
    ensures forall k :: k in BillsOf(c, rows, author)
                        ==> exists row :: row in rows && Explains(c, row, author, k, BillsOf(c, rows, author)[k])
    ensures forall row :: row in rows && Billable(c, row) ==> KeyOf(c, row) in BillsOf(c, rows, author)
  {
    hide Billable, EntryFor;
    if rows != [] {
      var rest, last := rows[..|rows| - 1], rows[|rows| - 1];
      BillsOfMembers(c, rest, author);
      var bills, earlier := BillsOf(c, rows, author), BillsOf(c, rest, author);
      assert A: forall k :: k in earlier ==> exists row :: row in rest && Explains(c, row, author, k, earlier[k]);
      forall k | k in bills ensures exists row :: row in rows && Explains(c, row, author, k, bills[k]) {
        if Billable(c, last) && k == KeyOf(c, last) {
          assert last in rows && Explains(c, last, author, k, bills[k]);
        } else {
          assert k in earlier && bills[k] == earlier[k];
          var row :| row in rest && Explains(c, row, author, k, earlier[k]);
          assert row in rows;
        }
      }
    }
  }

  /** In a list whose rows have distinct period starts, every billable row keeps its own entry. */
  lemma BillOfRow(c: Contract, rows: seq<Row>, author: Option<nat>, row: Row)
    requires Identifies(rows) && row in rows && Billable(c, row)
    ensures KeyOf(c, row) in BillsOf(c, rows, author)
    ensures BillsOf(c, rows, author)[KeyOf(c, row)] == EntryFor(c, row, author)
  {}

  /** What a run leaves behind: consistent books whose old entries stay and in which every other
      billable row has exactly its own entry. */
  ghost predicate Billed(b: Books, c: Contract, rows: seq<Row>, author: Option<nat>, r: Run) {
    Consistent(b) && Consistent(r.books) && View(r.books) == BillsOf(c, rows, author) + View(b)
  }

  /** What a run reports: every row counted once, and the created ids are exactly the new drafts. */
  ghost predicate Reported(b: Books, rows: seq<Row>, r: Run) {
    && |r.created| + r.skippedExisting + r.skippedNoRevision == |rows|
    && b.nextId <= r.books.nextId
    && (forall id :: id in r.books.invoices <==> id in b.invoices || id in r.created)
    && (forall id :: id in r.created ==> b.nextId <= id < r.books.nextId)
    && (forall id :: id in b.invoices && id < b.nextId ==> r.books.invoices[id] == b.invoices[id])
  }

  lemma {:induction false} RunIsReported(b: Books, c: Contract, rows: seq<Row>, author: Option<nat>)
    ensures Reported(b, rows, RunRows(b, c, rows, author))
  {
    hide Billable, InvoiceFor, ActiveRevision, KeyOf;
    if rows != [] {
      RunIsReported(b, c, rows[..|rows| - 1], author);
    }
  }

  lemma {:induction false} RunBills(b: Books, c: Contract, rows: seq<Row>, author: Option<nat>)
    requires Consistent(b) && Identifies(rows)
    ensures Billed(b, c, rows, author, RunRows(b, c, rows, author))
  {
    hide Identifies, RunRow, View, Consistent;
    if rows == [] {
      assert BillsOf(c, rows, author) + View(b) == View(b);
    } else {
      var rest, row := rows[..|rows| - 1], rows[|rows| - 1];
      assert rows == rest + [row];
      IdentifiesPrefix(rest, row);
      RunBills(b, c, rest, author);
      RowBills(b, c, rest, row, author, RunRows(b, c, rest, author));
    }
  }

  lemma IdentifiesPrefix(rest: seq<Row>, row: Row)
    requires Identifies(rest + [row])
    ensures Identifies(rest)
  {}

  lemma BillsOfSnoc(c: Contract, rest: seq<Row>, row: Row, author: Option<nat>)
    ensures BillsOf(c, rest + [row], author)
            == if Billable(c, row) then BillsOf(c, rest, author)[KeyOf(c, row) := EntryFor(c, row, author)]
               else BillsOf(c, rest, author)
  {
    hide Billable, EntryFor;
    assert (rest + [row])[..|rest|] == rest;
  }

  lemma PutBelow<K, V>(bills: map<K, V>, before: map<K, V>, k: K, e: V)
    ensures k !in before ==> bills[k := e] + before == (bills + before)[k := e]
    ensures k in before || (k in bills && bills[k] == e) ==> bills[k := e] + before == bills + before
  {}

  lemma RowBills(b: Books, c: Contract, rest: seq<Row>, row: Row, author: Option<nat>, r: Run)
    requires Identifies(rest + [row]) && Billed(b, c, rest, author, r)
    ensures Billed(b, c, rest + [row], author, RunRow(r, c, row, author))
  {
    hide Billable, EntryFor, Consistent, View, Identifies, Post, BillsOf;
    BillsOfSnoc(c, rest, row, author);
    if Billable(c, row) {
      var key, id := KeyOf(c, row), r.books.nextId;
      var drawn := r.books.(nextId := id + 1);
      DrawKeepsBooks(r.books, drawn);
      ViewKeys(b);
      ViewKeys(r.books);
      PutBelow(BillsOf(c, rest, author), View(b), key, EntryFor(c, row, author));
      if key !in drawn.claims {
        PostKeepsConsistent(drawn, c, row, author, id);
      } else if key in BillsOf(c, rest, author) {
        SameBillTwice(c, rest, row, author);
      }
    }
  }

  lemma SameBillTwice(c: Contract, rest: seq<Row>, row: Row, author: Option<nat>)
    requires Identifies(rest + [row]) && Billable(c, row) && KeyOf(c, row) in BillsOf(c, rest, author)
    ensures BillsOf(c, rest, author)[KeyOf(c, row)] == EntryFor(c, row, author)
  {}

  lemma ViewKeys(b: Books)
    requires Consistent(b)
    ensures forall k :: k in View(b) <==> k in b.claims
    ensures b.nextId !in b.invoices
  {}

  lemma DrawKeepsBooks(b: Books, drawn: Books)
    requires Consistent(b) && drawn == b.(nextId := drawn.nextId) && b.nextId <= drawn.nextId
    ensures Consistent(drawn) && View(drawn) == View(b)
  {
    forall id | id in drawn.invoices ensures exists k :: Claims(drawn, k, id) {
      var k :| Claims(b, k, id);
      assert Claims(drawn, k, id);
    }
    forall j, k, id | Claims(drawn, j, id) && Claims(drawn, k, id) ensures j == k {
      assert Claims(b, j, id) && Claims(b, k, id);
    }
  }

  // ----- What a run drafts and counts, in the contract's own terms -----

  /** No scope was agreed when the period begins: no revision in force, or one without lines. */
  function NoScope(c: Contract): Row -> bool {
    (row: Row) => match ActiveRevision(c, row.periodStart)
                  case None => true
                  case Some(r) => r.lines == []
  }

  /** A scope was agreed, and the books have a claim on the period already, or have none yet. */
  ghost function WithScope(b: Books, c: Contract, claimed: bool): Row -> bool {
    (row: Row) => !NoScope(c)(row) && (ClaimKey(c.id, row.periodStart) in b.claims) == claimed
  }

  ghost predicate DistinctStarts(rows: seq<Row>) {
    forall i, j :: 0 <= i < j < |rows| ==> rows[i].periodStart != rows[j].periodStart
  }

  lemma RowKeepsClaims(r: Run, c: Contract, row: Row, author: Option<nat>)
    ensures forall k :: k in r.books.claims ==>
              && k in RunRow(r, c, row, author).books.claims
              && RunRow(r, c, row, author).books.claims[k] == r.books.claims[k]
    ensures forall k :: k in RunRow(r, c, row, author).books.claims <==>
              k in r.books.claims || (!NoScope(c)(row) && k == ClaimKey(c.id, row.periodStart))
  {
    hide ActiveRevision, InvoiceFor;
  }

  ghost predicate NamedByDueRow(c: Contract, rows: seq<Row>, k: ClaimKey) {
    exists row :: row in rows && !NoScope(c)(row) && k == ClaimKey(c.id, row.periodStart)
  }

  lemma NamedSnoc(c: Contract, rest: seq<Row>, row: Row, k: ClaimKey)
    ensures NamedByDueRow(c, rest + [row], k)
            <==> NamedByDueRow(c, rest, k) || (!NoScope(c)(row) && k == ClaimKey(c.id, row.periodStart))
  {
    hide NoScope;
    assert row in rest + [row];
    if NamedByDueRow(c, rest, k) {
      var r :| r in rest && !NoScope(c)(r) && k == ClaimKey(c.id, r.periodStart);
      assert r in rest + [row];
    }
  }

  lemma {:induction false} RunKeepsClaims(b: Books, c: Contract, rows: seq<Row>, author: Option<nat>)
    ensures forall k :: k in b.claims ==>
              && k in RunRows(b, c, rows, author).books.claims
              && RunRows(b, c, rows, author).books.claims[k] == b.claims[k]
    ensures forall k :: k in RunRows(b, c, rows, author).books.claims <==> k in b.claims || NamedByDueRow(c, rows, k)
  {
    hide RunRow, NoScope, NamedByDueRow;
    if rows == [] {
      forall k ensures !NamedByDueRow(c, rows, k) {
        NamedByNone(c, k);
      }
    } else {
      var rest, row := rows[..|rows| - 1], rows[|rows| - 1];
      assert rows == rest + [row];
      RunKeepsClaims(b, c, rest, author);
      RowKeepsClaims(RunRows(b, c, rest, author), c, row, author);
      forall k ensures NamedByDueRow(c, rows, k)
                       <==> NamedByDueRow(c, rest, k) || (!NoScope(c)(row) && k == ClaimKey(c.id, row.periodStart))
      {
        NamedSnoc(c, rest, row, k);
      }
    }
  }

  lemma NamedByNone(c: Contract, k: ClaimKey)
    ensures !NamedByDueRow(c, [], k)
  {}

  /** The three counts of a run: rows without an agreed scope, rows whose period was claimed before,
      and the others, each of which gets a draft. */
  lemma {:induction false} RunCounts(b: Books, c: Contract, rows: seq<Row>, author: Option<nat>)
    requires DistinctStarts(rows)
    ensures RunRows(b, c, rows, author).skippedNoRevision == |Filter(rows, NoScope(c))|
    ensures RunRows(b, c, rows, author).skippedExisting == |Filter(rows, WithScope(b, c, true))|
    ensures |RunRows(b, c, rows, author).created| == |Filter(rows, WithScope(b, c, false))|
  {
    hide ActiveRevision, InvoiceFor;
    if rows != [] {
      var rest, row := rows[..|rows| - 1], rows[|rows| - 1];
      RunCounts(b, c, rest, author);
      RunKeepsClaims(b, c, rest, author);
      assert forall r :: r in rest ==> r.periodStart != row.periodStart;
    }
  }

  lemma DueStartsAreDistinct(c: Contract, on: Day)
    ensures DistinctStarts(Due(c, on))
  {
    hide Due, Before;
    DueRowsAreRows(c, on);
    var rows := Due(c, on);
    forall i, j | 0 <= i < j < |rows| ensures rows[i].periodStart != rows[j].periodStart {
      assert rows[i] in rows && rows[j] in rows;
      OrdinalOrder(rows[i].invoiceDate, rows[j].invoiceDate);
    }
  }

  /** Line by line, the invoice carries the revision's agreed scope, and its totals add up. */
  ghost predicate CarriesTheScope(invoice: Invoice, revision: Revision) {
    && |invoice.lines| == |revision.lines|
    && (forall n :: 0 <= n < |revision.lines| ==>
          && invoice.lines[n].ordering == n
          && invoice.lines[n].description == revision.lines[n].name
          && invoice.lines[n].unitPrice == invoice.lines[n].subtotal == revision.lines[n].amount
          && invoice.lines[n].vatPct == revision.lines[n].vatPct
          && NearestTiesAway(invoice.lines[n].vat, revision.lines[n].amount * revision.lines[n].vatPct, 10000)
          && invoice.lines[n].total == invoice.lines[n].subtotal + invoice.lines[n].vat)
    && invoice.subtotal == RevisionAmount(revision)
    && invoice.vat == Sum(Vats(invoice.lines))
    && invoice.total == invoice.subtotal + invoice.vat
  }

  lemma EntryCarriesTheScope(c: Contract, row: Row, author: Option<nat>)
    requires Billable(c, row)
    ensures CarriesTheScope(EntryFor(c, row, author).invoice, ActiveRevision(c, row.periodStart).value)
  {
    hide ActiveRevision, RoundHalfUp, NearestTiesAway;
    var revision := ActiveRevision(c, row.periodStart).value;
    TotalsAddUp(revision.lines);
    forall n | 0 <= n < |revision.lines|
      ensures NearestTiesAway(BillLine(revision.lines[n], n).vat,
                              revision.lines[n].amount * revision.lines[n].vatPct, 10000)
    {
      LineVatIsNearest(revision.lines[n], n, BillLine(revision.lines[n], n).vat);
    }
  }

  // ----- Runs of the generator, one after the other -----

  /** A register never bills, and neither does a draft or cancelled contract. */
  predicate Bills(c: Contract) {
    c.kind != ExtraWork && c.lifecycle == Active
  }

  function RowsToBill(c: Contract, on: Day): seq<Row> {
    if Bills(c) then Due(c, on) else []
  }

  function RunContract(b: Books, c: Contract, author: Option<nat>, on: Day): Run {
    RunRows(b, c, RowsToBill(c, on), author)
  }

  lemma RowsToBillAreIdentified(c: Contract, on: Day)
    ensures Identifies(RowsToBill(c, on))
  {
    hide Due;
    DueRowsAreRows(c, on);
  }

  lemma RunContractBills(b: Books, c: Contract, author: Option<nat>, on: Day)
    requires Consistent(b)
    ensures Billed(b, c, RowsToBill(c, on), author, RunContract(b, c, author, on))
    ensures Reported(b, RowsToBill(c, on), RunContract(b, c, author, on))
  {
    hide RowsToBill;
    RowsToBillAreIdentified(c, on);
    RunBills(b, c, RowsToBill(c, on), author);
    RunIsReported(b, c, RowsToBill(c, on), author);
  }

  /** A run does nothing unless the contract is an active standard one; then it goes over the due rows. */
  lemma OnlyActiveContractsBill(b: Books, c: Contract, author: Option<nat>, on: Day)
    ensures c.lifecycle != Active || c.kind != Standard ==> RunContract(b, c, author, on) == Run(b, [], 0, 0)
    ensures c.lifecycle == Active && c.kind == Standard
            ==> RunContract(b, c, author, on) == RunRows(b, c, Due(c, on), author)
  {
    hide Due;
  }

  /** What a run of an active contract counts, over its due rows. */
  lemma RunContractCounts(b: Books, c: Contract, author: Option<nat>, on: Day)
    requires c.lifecycle == Active && c.kind == Standard
    ensures RunContract(b, c, author, on).skippedNoRevision == |Filter(Due(c, on), NoScope(c))|
    ensures RunContract(b, c, author, on).skippedExisting == |Filter(Due(c, on), WithScope(b, c, true))|
    ensures |RunContract(b, c, author, on).created| == |Filter(Due(c, on), WithScope(b, c, false))|
  {
    hide Due, RunRows, Filter, NoScope, WithScope;
    DueStartsAreDistinct(c, on);
    RunCounts(b, c, Due(c, on), author);
  }

  lemma NewClaimOf(b: Books, c: Contract, rows: seq<Row>, author: Option<nat>, r: Run, id: nat) returns (key: ClaimKey)
    requires Billed(b, c, rows, author, r) && Reported(b, rows, r) && id in r.created
    requires forall k :: k in b.claims ==> k in r.books.claims && r.books.claims[k] == b.claims[k]
    ensures key !in b.claims && key in r.books.claims && r.books.claims[key].invoice == id && id in r.books.invoices
    ensures key in BillsOf(c, rows, author)
    ensures BillsOf(c, rows, author)[key] == EntryOf(r.books.claims[key], r.books.invoices[id])
  {
    hide BillsOf, EntryOf;
    key :| Claims(r.books, key, id);
    assert key !in b.claims;
    assert key in View(r.books);
  }

  /** Every draft a run creates, in full. It belongs to one due period of the contract's life and is the
      period's one claim. It is unnumbered, carries the contract's parties, the year and month of the
      period's first covered day and the author of the run, and has one line per line of the revision
      that is active on that day. */
  lemma CreatedDraftsAreExact(b: Books, c: Contract, author: Option<nat>, on: Day, id: nat)
    returns (index: int, row: Row, revision: Revision)
    requires Consistent(b) && id in RunContract(b, c, author, on).created
    ensures c.lifecycle == Active && c.kind == Standard
    ensures c.InLife(index) && RowFor(c, index) == Some(row) && row in Due(c, on)
    ensures ActiveRevision(c, row.periodStart) == Some(revision) && revision.lines != []
    ensures var after := RunContract(b, c, author, on).books;
            var key := ClaimKey(c.id, row.periodStart);
            && key !in b.claims && key in after.claims
            && after.claims[key] == Claim(id, revision.id, row.periodEnd, row.invoiceDate)
            && id in after.invoices
            && after.invoices[id].status == DraftStatus && after.invoices[id].number == None
            && after.invoices[id].company == c.company && after.invoices[id].customer == c.customer
            && after.invoices[id].periodYear == row.periodStart.year
            && after.invoices[id].periodMonth == row.periodStart.month
            && after.invoices[id].createdBy == author
            && CarriesTheScope(after.invoices[id], revision)
  {
    hide Due, RunRows, BillsOf, Consistent, ActiveRevision, BillLines, NoScope, CarriesTheScope, RowFor, RevisionAmount;
    OnlyActiveContractsBill(b, c, author, on);
    var rows, after := RowsToBill(c, on), RunContract(b, c, author, on).books;
    RunContractBills(b, c, author, on);
    RunKeepsClaims(b, c, rows, author);
    var key := NewClaimOf(b, c, rows, author, RunContract(b, c, author, on), id);
    BillsOfMembers(c, rows, author);
    var bill := BillsOf(c, rows, author)[key];
    row :| row in rows && Explains(c, row, author, key, bill);
    revision := ActiveRevision(c, row.periodStart).value;
    EntryCarriesTheScope(c, row, author);
    DueRowsAreRows(c, on);
    index :| c.InLife(index) && RowFor(c, index) == Some(row);
  }

  /** A draft of one of the contract's due periods, carrying the scope agreed for it. */
  ghost predicate IsDraftOf(c: Contract, on: Day, invoice: Invoice) {
    && invoice.company == c.company && invoice.customer == c.customer
    && exists row, revision ::
         && row in Due(c, on) && ActiveRevision(c, row.periodStart) == Some(revision)
         && invoice.periodYear == row.periodStart.year && invoice.periodMonth == row.periodStart.month
         && CarriesTheScope(invoice, revision)
  }

  lemma CreatedAreDrafts(b: Books, c: Contract, author: Option<nat>, on: Day)
    requires Consistent(b)
    ensures forall id :: id in RunContract(b, c, author, on).created ==>
              && id in RunContract(b, c, author, on).books.invoices
              && IsDraftOf(c, on, RunContract(b, c, author, on).books.invoices[id])
              && RunContract(b, c, author, on).books.invoices[id].createdBy == author
  {
    hide RunContract, Due, Consistent, ActiveRevision, CarriesTheScope, RowFor;
    var run := RunContract(b, c, author, on);
    forall id | id in run.created
      ensures id in run.books.invoices && IsDraftOf(c, on, run.books.invoices[id])
      ensures run.books.invoices[id].createdBy == author
    {
      var index, row, revision := CreatedDraftsAreExact(b, c, author, on, id);
    }
  }

  /** After a run the claimed periods are those claimed before and every due period with a scope. */
  lemma ClaimsAfterRun(b: Books, c: Contract, author: Option<nat>, on: Day, k: ClaimKey)
    ensures k in RunContract(b, c, author, on).books.claims <==>
              || k in b.claims
              || (c.lifecycle == Active && c.kind == Standard
                  && exists row :: row in Due(c, on) && !NoScope(c)(row) && k == ClaimKey(c.id, row.periodStart))
    ensures k in b.claims ==> RunContract(b, c, author, on).books.claims[k] == b.claims[k]
  {
    hide Due, RunRows, NoScope;
    OnlyActiveContractsBill(b, c, author, on);
    RunKeepsClaims(b, c, Due(c, on), author);
  }

  ghost predicate Extends<K, V>(late: map<K, V>, early: map<K, V>) {
    forall k :: k in early ==> k in late && late[k] == early[k]
  }

  /** Later dates only add bills: what is billed by an earlier date is billed the same by a later. */
  lemma BillsGrow(c: Contract, author: Option<nat>, on1: Day, on2: Day)
    requires !Before(on2, on1)
    ensures Extends(BillsOf(c, RowsToBill(c, on2), author), BillsOf(c, RowsToBill(c, on1), author))
  {
    hide Due, BillsOf, Billable, EntryFor;
    var early := BillsOf(c, RowsToBill(c, on1), author);
    DueGrows(c, on1, on2);
    RowsToBillAreIdentified(c, on2);
    BillsOfMembers(c, RowsToBill(c, on1), author);
    forall k | k in early
      ensures k in BillsOf(c, RowsToBill(c, on2), author) && BillsOf(c, RowsToBill(c, on2), author)[k] == early[k]
    {
      var row :| row in RowsToBill(c, on1) && Explains(c, row, author, k, early[k]);
      BillOfRow(c, RowsToBill(c, on2), author, row);
    }
  }

  lemma Absorb<K, V>(late: map<K, V>, early: map<K, V>, before: map<K, V>)
    requires Extends(late, early)
    ensures late + (early + before) == late + before
  {}

  /** December's 310.00 is never billed: its row has an agreed scope, and still no run on any date,
      by anyone and over any books, bills it. */
  lemma MissedDecemberIsNeverBilled(b: Books, c: Contract, row: Row, author: Option<nat>, on: Day)
    requires c == DecemberOnly() && RowFor(c, c.First()) == Some(row)
    ensures Bills(c) && Billable(c, row) && row.amount == 31000
    ensures RunContract(b, c, author, on) == Run(b, [], 0, 0)
  {
    hide RowFor, FirstRow, ActiveRevision, Due;
    FirstPeriodHasARow(c);
    DecemberRow();
    MissedDecember(on);
  }

  /** A run on one date followed by a run on a later date leaves the same books as the later run
      alone, up to invoice ids. */
  lemma EarlierRunChangesNothing(b: Books, c: Contract, author: Option<nat>, on1: Day, on2: Day)
    requires Consistent(b) && !Before(on2, on1)
    ensures var first := RunContract(b, c, author, on1).books;
            && Consistent(first)
            && Consistent(RunContract(first, c, author, on2).books)
            && Consistent(RunContract(b, c, author, on2).books)
            && View(RunContract(first, c, author, on2).books) == View(RunContract(b, c, author, on2).books)
  {
    hide RunContract, RowsToBill, BillsOf, View, Consistent, Reported;
    RunContractBills(b, c, author, on1);
    RunContractBills(RunContract(b, c, author, on1).books, c, author, on2);
    RunContractBills(b, c, author, on2);
    BillsGrow(c, author, on1, on2);
    Absorb(BillsOf(c, RowsToBill(c, on2), author), BillsOf(c, RowsToBill(c, on1), author), View(b));
  }

  lemma {:induction false} AllClaimedAlready(b: Books, c: Contract, rows: seq<Row>, author: Option<nat>)
    requires forall row :: row in rows && Billable(c, row) ==> KeyOf(c, row) in b.claims
    ensures var r := RunRows(b, c, rows, author);
            && r.created == []
            && r.books.invoices == b.invoices && r.books.claims == b.claims
  {
    hide Billable, InvoiceFor, ClaimFor, KeyOf;
    if rows != [] {
      assert rows[|rows| - 1] in rows;
      AllClaimedAlready(b, c, rows[..|rows| - 1], author);
    }
  }

  /** Running again, for the same or any earlier date and whoever runs it, creates nothing and
      changes nothing. */
  lemma RerunCreatesNothing(b: Books, c: Contract, author: Option<nat>, author': Option<nat>, on: Day, on': Day)
    requires Consistent(b) && !Before(on, on')
    ensures var first := RunContract(b, c, author, on);
            var second := RunContract(first.books, c, author', on');
            && second.created == []
            && second.books.invoices == first.books.invoices && second.books.claims == first.books.claims
            && second.skippedExisting + second.skippedNoRevision == |RowsToBill(c, on')|
  {
    hide RowsToBill, RunRows, Billable, View, Consistent;
    var first := RunContract(b, c, author, on);
    RunContractBills(b, c, author, on);
    RunIsReported(first.books, c, RowsToBill(c, on'), author');
    ViewKeys(first.books);
    ToBillGrows(c, on', on);
    BillsOfMembers(c, RowsToBill(c, on), author);
    AllClaimedAlready(first.books, c, RowsToBill(c, on'), author');
  }

  lemma ToBillGrows(c: Contract, on1: Day, on2: Day)
    requires !Before(on2, on1)
    ensures forall row :: row in RowsToBill(c, on1) ==> row in RowsToBill(c, on2)
  {
    hide Due;
    DueGrows(c, on1, on2);
  }

  /** Hard-deleting an invoice takes its claim with it (CASCADE). */
  function DeleteInvoice(b: Books, k: ClaimKey): Books
    requires k in b.claims
  {
    b.(invoices := map id | id in b.invoices && id != b.claims[k].invoice :: b.invoices[id],
       claims := map j | j in b.claims && j != k :: b.claims[j])
  }

  lemma DeleteKeepsConsistent(b: Books, k: ClaimKey)
    requires Consistent(b) && k in b.claims
    ensures Consistent(DeleteInvoice(b, k))
    ensures View(DeleteInvoice(b, k)) == View(b) - {k}
  {
    hide View;
    var b' := DeleteInvoice(b, k);
    OthersOutliveDelete(b, k);
    forall id | id in b'.invoices ensures exists j :: Claims(b', j, id) {
      var j :| Claims(b, j, id);
      assert Claims(b', j, id);
    }
    forall i, j, id | Claims(b', i, id) && Claims(b', j, id) ensures i == j {
      assert Claims(b, i, id) && Claims(b, j, id);
    }
    assert Consistent(b');
    ViewAfterDelete(b, k);
  }

  lemma ViewAfterDelete(b: Books, k: ClaimKey)
    requires Consistent(b) && k in b.claims && Consistent(DeleteInvoice(b, k))
    ensures View(DeleteInvoice(b, k)) == View(b) - {k}
  {
    hide EntryOf;
    OthersOutliveDelete(b, k);
  }

  lemma OthersOutliveDelete(b: Books, k: ClaimKey)
    requires Consistent(b) && k in b.claims
    ensures forall j :: j in b.claims && j != k ==> b.claims[j].invoice in DeleteInvoice(b, k).invoices
  {
    forall j | j in b.claims && j != k ensures b.claims[j].invoice != b.claims[k].invoice {
      assert Claims(b, j, b.claims[j].invoice) && Claims(b, k, b.claims[k].invoice);
    }
  }

  lemma {:induction false} OneUnclaimed(b: Books, c: Contract, rows: seq<Row>, author: Option<nat>, k: ClaimKey)
    requires k !in b.claims
    requires forall row :: row in rows && Billable(c, row) && KeyOf(c, row) != k ==> KeyOf(c, row) in b.claims
    ensures var r := RunRows(b, c, rows, author);
            && |r.created| == (if k in BillsOf(c, rows, author) then 1 else 0)
            && r.books.claims.Keys == b.claims.Keys + (if k in BillsOf(c, rows, author) then {k} else {})
  {
    hide Billable, InvoiceFor, ClaimFor, KeyOf, EntryFor;
    if rows != [] {
      assert rows[|rows| - 1] in rows;
      OneUnclaimed(b, c, rows[..|rows| - 1], author, k);
    }
  }

  lemma RerunAfterCut(first: Books, c: Contract, author: Option<nat>, on: Day, k: ClaimKey)
    requires Consistent(first) && k in first.claims
    requires k in BillsOf(c, RowsToBill(c, on), author)
    requires forall j :: j in BillsOf(c, RowsToBill(c, on), author) ==> j in first.claims
    ensures Consistent(DeleteInvoice(first, k))
    ensures var again := RunContract(DeleteInvoice(first, k), c, author, on);
            && |again.created| == 1 && Consistent(again.books)
            && View(again.books) == BillsOf(c, RowsToBill(c, on), author) + (View(first) - {k})
  {
    hide RowsToBill, RunRows, BillsOf, Billable, View, Consistent, Reported;
    DeleteKeepsConsistent(first, k);
    var cut := DeleteInvoice(first, k);
    RunContractBills(cut, c, author, on);
    BillsOfMembers(c, RowsToBill(c, on), author);
    OneUnclaimed(cut, c, RowsToBill(c, on), author, k);
  }

  lemma PutBack<K, V>(bills: map<K, V>, cut: map<K, V>, k: K)
    requires k in bills && k !in cut && bills.Keys <= cut.Keys + {k}
    ensures bills + cut == cut[k := bills[k]]
  {}

  /** After a run, whoever made it and whatever was in the books before it, hard-deleting any period
      that is due lets the next run bill exactly that period again, from the contract's own row, and
      nothing else; when it was that run that billed it, the books are as they were. */
  lemma DeletedPeriodIsRecreated(b: Books, c: Contract, author: Option<nat>, author': Option<nat>, on: Day, k: ClaimKey)
    requires Consistent(b) && k in BillsOf(c, RowsToBill(c, on), author')
    ensures var first := RunContract(b, c, author, on).books;
            && Consistent(first) && k in first.claims && Consistent(DeleteInvoice(first, k))
            && var again := RunContract(DeleteInvoice(first, k), c, author', on);
               && |again.created| == 1 && Consistent(again.books)
               && View(again.books) == (View(first) - {k})[k := BillsOf(c, RowsToBill(c, on), author')[k]]
               && (author' == author && k !in b.claims ==> View(again.books) == View(first))
  {
    hide RowsToBill, RunContract, BillsOf, View, Consistent, Reported, DeleteInvoice;
    var first := RunContract(b, c, author, on).books;
    RunContractBills(b, c, author, on);
    SameKeys(c, RowsToBill(c, on), author, author');
    ViewKeys(b);
    ViewKeys(first);
    RerunAfterCut(first, c, author', on, k);
    PutBack(BillsOf(c, RowsToBill(c, on), author'), View(first) - {k}, k);
  }

  lemma {:induction false} SameKeys(c: Contract, rows: seq<Row>, author: Option<nat>, author': Option<nat>)
    ensures BillsOf(c, rows, author).Keys == BillsOf(c, rows, author').Keys
  {
    hide Billable, EntryFor;
    if rows != [] {
      SameKeys(c, rows[..|rows| - 1], author, author');
    }
  }

  // ----- Bills and new revisions -----

  lemma SameBill(c: Contract, c': Contract, r: Revision, row: Row, author: Option<nat>)
    requires RevisionAdded(c, c', r) && Before(row.periodStart, r.effectiveFrom)
    ensures Billable(c', row) == Billable(c, row) && KeyOf(c', row) == KeyOf(c, row)
    ensures Billable(c, row) ==> EntryFor(c', row, author) == EntryFor(c, row, author)
  {
    hide ActiveRevision, Before;
    ActiveAfterAdding(c, c', r, row.periodStart);
  }

  lemma SameRowDue(c: Contract, c': Contract, r: Revision, on: Day, row: Row)
    requires RevisionAdded(c, c', r) && Before(row.periodStart, r.effectiveFrom)
    ensures row in RowsToBill(c, on) <==> row in RowsToBill(c', on)
  {
    hide RowFor, PeriodIndex, InvoiceDate, Due, Before;
    DueRowsAreRows(c, on);
    DueRowsAreRows(c', on);
    if row in Due(c, on) || row in Due(c', on) {
      var i :| c.InLife(i) && (RowFor(c, i) == Some(row) || RowFor(c', i) == Some(row));
      CoveredExactlyInLife(c, i);
      HistoryIsStable(c, c', r, i);
      SameDates(c, c', i);
      DueIsExact(c, on, i);
      DueIsExact(c', on, i);
    }
  }

  /** A period that starts before a new revision takes effect is billed as if the revision were not
      there: the same periods, with the same invoices. */
  lemma OldPeriodsKeepTheirBills(c: Contract, c': Contract, r: Revision, author: Option<nat>, on: Day, k: ClaimKey)
    requires RevisionAdded(c, c', r) && Before(k.periodStart, r.effectiveFrom)
    ensures k in BillsOf(c', RowsToBill(c', on), author) <==> k in BillsOf(c, RowsToBill(c, on), author)
    ensures k in BillsOf(c, RowsToBill(c, on), author)
            ==> BillsOf(c', RowsToBill(c', on), author)[k] == BillsOf(c, RowsToBill(c, on), author)[k]
  {
    hide RowsToBill, BillsOf, Billable, EntryFor, Before, RevisionAdded;
    RowsToBillAreIdentified(c, on);
    RowsToBillAreIdentified(c', on);
    if k in BillsOf(c, RowsToBill(c, on), author) {
      BillsOfMembers(c, RowsToBill(c, on), author);
      var row :| row in RowsToBill(c, on) && Explains(c, row, author, k, BillsOf(c, RowsToBill(c, on), author)[k]);
      SameRowDue(c, c', r, on, row);
      SameBill(c, c', r, row, author);
      BillOfRow(c, RowsToBill(c, on), author, row);
      BillOfRow(c', RowsToBill(c', on), author, row);
    } else if k in BillsOf(c', RowsToBill(c', on), author) {
      BillsOfMembers(c', RowsToBill(c', on), author);
      var row :| row in RowsToBill(c', on) && Explains(c', row, author, k, BillsOf(c', RowsToBill(c', on), author)[k]);
      SameRowDue(c, c', r, on, row);
      SameBill(c, c', r, row, author);
      BillOfRow(c, RowsToBill(c, on), author, row);
    }
  }

  /** A catch-up run after the revision was added bills every earlier period, late or not, at the
      price that applied: over any books it leaves the same entries there as without the revision. */
  lemma CatchUpBillsAtOldPrices(b: Books, c: Contract, c': Contract, r: Revision, author: Option<nat>, on: Day,
                                k: ClaimKey)
    requires Consistent(b) && RevisionAdded(c, c', r) && Before(k.periodStart, r.effectiveFrom)
    ensures var before, after := RunContract(b, c, author, on).books, RunContract(b, c', author, on).books;
            && Consistent(before) && Consistent(after)
            && (k in View(after) <==> k in View(before))
            && (k in View(before) ==> View(after)[k] == View(before)[k])
  {
    hide RowsToBill, RunContract, BillsOf, View, Consistent, Reported, RevisionAdded, Before;
    RunContractBills(b, c, author, on);
    RunContractBills(b, c', author, on);
    OldPeriodsKeepTheirBills(c, c', r, author, on, k);
  }

  // ----- The generator itself -----

  class GenerationResult {
    var created: seq<nat>
    var skippedExisting: nat
    var skippedNotDue: nat
    var skippedNoRevision: nat

    constructor ()
      ensures created == [] && skippedExisting == skippedNotDue == skippedNoRevision == 0
    {
      created, skippedExisting, skippedNotDue, skippedNoRevision := [], 0, 0, 0;
    }

    ghost predicate Shows(r: Run)
      reads this
    {
      && created == r.created && skippedExisting == r.skippedExisting
      && skippedNoRevision == r.skippedNoRevision && skippedNotDue == 0
    }
  }

  class Database {
    var invoices: map<nat, Invoice>
    var claims: map<ClaimKey, Claim>
    var nextId: nat

    ghost function Contents(): Books
      reads this
    {
      Books(invoices, claims, nextId)
    }

    constructor ()
      ensures Contents() == Books(map[], map[], 0)
    {
      invoices, claims, nextId := map[], map[], 0;
    }

    /** The draft invoice, its lines one by one, and the recomputed totals. */
    method WriteDraft(c: Contract, row: Row, author: Option<nat>, revision: Revision, id: nat)
      modifies this`invoices
      ensures invoices == old(invoices)[id := DraftFor(c, revision, row, author)]
    {
      hide RoundHalfUp, Sum;
      var invoice := Invoice(c.company, c.customer, DraftStatus, None, row.periodStart.year, row.periodStart.month,
                             author, [], 0, 0, 0);
      invoices := invoices[id := invoice];
      var lines := [];
      for index := 0 to |revision.lines|
        invariant lines == BillLines(revision.lines)[..index]
        invariant invoices == old(invoices)[id := invoice.(lines := lines)]
      {
        var line := revision.lines[index];
        var vat := RoundHalfUp(line.amount * line.vatPct, 10000);
        lines := lines + [InvoiceLine(index, line.name, line.amount, line.vatPct, line.amount, vat, line.amount + vat)];
        invoices := invoices[id := invoice.(lines := lines)];
      }
      assert lines == BillLines(revision.lines);
      invoices := invoices[id := invoice.(lines := lines, subtotal := Sum(Subtotals(lines)),
                                          vat := Sum(Vats(lines)), total := Sum(Totals(lines)))];
    }

    /** The savepoint of one period: the draft and its lines are written first, then the claim;
        a refused claim rolls everything back except the drawn id. */
    method BillPeriod(c: Contract, row: Row, author: Option<nat>, revision: Revision) returns (claimed: bool, id: nat)
      requires Billable(c, row) && ActiveRevision(c, row.periodStart) == Some(revision)
      modifies this
      ensures id == old(nextId) && claimed == (KeyOf(c, row) !in old(claims))
      ensures Contents() == if claimed then Post(old(Contents()).(nextId := id + 1), c, row, author, id)
                            else old(Contents()).(nextId := id + 1)
    {
      hide DraftFor, ActiveRevision;
      var savedInvoices, savedClaims := invoices, claims;
      id := nextId;
      nextId := nextId + 1;
      WriteDraft(c, row, author, revision, id);
      var key := ClaimKey(c.id, row.periodStart);
      claimed := key !in claims;
      if claimed {
        claims := claims[key := Claim(id, revision.id, row.periodEnd, row.invoiceDate)];
      } else {
        invoices, claims := savedInvoices, savedClaims;
      }
    }

    /** One due row: skipped when no scope was agreed, otherwise billed or counted as existing. */
    method ProcessRow(c: Contract, row: Row, author: Option<nat>, result: GenerationResult, ghost r: Run)
      requires Contents() == r.books && result.Shows(r)
      modifies this, result
      ensures Contents() == RunRow(r, c, row, author).books
      ensures result.Shows(RunRow(r, c, row, author))
    {
      hide InvoiceFor, ClaimFor, Post, ActiveRevision;
      var revision := ActiveRevision(c, row.periodStart);
      if revision == None || revision.value.lines == [] {
        result.skippedNoRevision := result.skippedNoRevision + 1;
        return;
      }
      var claimed, id := BillPeriod(c, row, author, revision.value);
      if claimed {
        result.created := result.created + [id];
      } else {
        result.skippedExisting := result.skippedExisting + 1;
      }
    }

    /** `generate_invoices_for_contract`. A null result is the refused call that names no actor. */
    method GenerateForContract(c: Contract, actor: Option<nat>, system: bool, on: Day)
      returns (result: GenerationResult?)
      modifies this
      ensures result == null <==> actor == None && !system
      ensures result == null ==> Contents() == old(Contents())
      ensures result != null ==>
                && fresh(result)
                && Contents() == RunContract(old(Contents()), c, if system then None else actor, on).books
                && result.Shows(RunContract(old(Contents()), c, if system then None else actor, on))
      ensures result != null && old(Consistent(Contents())) ==>
                forall id :: id in result.created ==>
                  && id in invoices && IsDraftOf(c, on, invoices[id])
                  && (invoices[id].createdBy == None <==> system)
                  && (invoices[id].createdBy.Some? ==> invoices[id].createdBy == actor)
    {
      hide Due, RunRow, IsDraftOf, Consistent;
      if Consistent(Contents()) {
        CreatedAreDrafts(Contents(), c, if system then None else actor, on);
      }
      if actor == None && !system {
        return null;
      }
      var author := if system then None else actor;
      result := new GenerationResult();
      if c.kind == ExtraWork || c.lifecycle != Active {
        return;
      }
      var rows := CollectDueRows(c, on);
      ghost var before := Contents();
      for i := 0 to |rows|
        invariant fresh(result)
        invariant Contents() == RunRows(before, c, rows[..i], author).books
        invariant result.Shows(RunRows(before, c, rows[..i], author))
      {
        ghost var r := RunRows(before, c, rows[..i], author);
        RunRowsStep(before, c, rows, i, author);
        ProcessRow(c, rows[i], author, result, r);
      }
      assert rows[..|rows|] == rows;
    }

    /** `generate_invoices`: every active contract, optionally of one company, one after the other. */
    method GenerateInvoices(contracts: seq<Contract>, company: Option<nat>, actor: Option<nat>, system: bool, on: Day)
      returns (combined: GenerationResult?)
      modifies this
      ensures combined == null <==> actor == None && !system && exists c :: c in contracts && Chosen(c, company)
      ensures combined == null ==> Contents() == old(Contents())
      ensures combined != null ==>
                var author := if system then None else actor;
                && fresh(combined)
                && Contents() == RunContracts(old(Contents()), contracts, company, author, on).books
                && combined.Shows(RunContracts(old(Contents()), contracts, company, author, on))
    {
      hide RunContract;
      var author := if system then None else actor;
      ghost var before := Contents();
      combined := new GenerationResult();
      for i := 0 to |contracts|
        invariant fresh(combined)
        invariant Contents() == RunContracts(before, contracts[..i], company, author, on).books
        invariant combined.Shows(RunContracts(before, contracts[..i], company, author, on))
        invariant actor == None && !system
                  ==> Contents() == before && forall c :: c in contracts[..i] ==> !Chosen(c, company)
      {
        assert contracts[..i + 1][..i] == contracts[..i];
        var c := contracts[i];
        if c.lifecycle != Active || (company.Some? && c.company != company.value) {
          continue;
        }
        var one := GenerateForContract(c, actor, system, on);
        if one == null {
          assert c in contracts && Chosen(c, company);
          return null;
        }
        combined.created := combined.created + one.created;
        combined.skippedExisting := combined.skippedExisting + one.skippedExisting;
        combined.skippedNotDue := combined.skippedNotDue + one.skippedNotDue;
        combined.skippedNoRevision := combined.skippedNoRevision + one.skippedNoRevision;
      }
      assert contracts[..|contracts|] == contracts;
    }
  }

  predicate Chosen(c: Contract, company: Option<nat>) {
    c.lifecycle == Active && (company.Some? ==> c.company == company.value)
  }

  function RunContracts(b: Books, contracts: seq<Contract>, company: Option<nat>, author: Option<nat>, on: Day): Run {
    if contracts == [] then Run(b, [], 0, 0)
    else
      var r, c := RunContracts(b, contracts[..|contracts| - 1], company, author, on), contracts[|contracts| - 1];
      if !Chosen(c, company) then r
      else
        var one := RunContract(r.books, c, author, on);
        Run(one.books, r.created + one.created, r.skippedExisting + one.skippedExisting,
            r.skippedNoRevision + one.skippedNoRevision)
  }

  function BillsOfAll(contracts: seq<Contract>, company: Option<nat>, author: Option<nat>, on: Day)
    : map<ClaimKey, Entry>
  {
    if contracts == [] then map[]
    else
      var earlier, c := BillsOfAll(contracts[..|contracts| - 1], company, author, on), contracts[|contracts| - 1];
      if Chosen(c, company) then BillsOf(c, RowsToBill(c, on), author) + earlier else earlier
  }

  /** The daily run over all contracts adds exactly the chosen contracts' due bills. */
  lemma {:induction false} DailyRunBills(b: Books, contracts: seq<Contract>, company: Option<nat>,
                                         author: Option<nat>, on: Day)
    requires Consistent(b)
    ensures Consistent(RunContracts(b, contracts, company, author, on).books)
    ensures View(RunContracts(b, contracts, company, author, on).books)
            == BillsOfAll(contracts, company, author, on) + View(b)
  {
    hide Consistent, View, RunContract, BillsOf, RowsToBill, Reported, Chosen;
    if contracts != [] {
      var rest, c := contracts[..|contracts| - 1], contracts[|contracts| - 1];
      DailyRunBills(b, rest, company, author, on);
      RunContractBills(RunContracts(b, rest, company, author, on).books, c, author, on);
    }
  }

  /** The rows that are due over the chosen contracts, and those of them without an agreed scope. */
  function DueCount(contracts: seq<Contract>, company: Option<nat>, on: Day, unscopedOnly: bool): nat {
    if contracts == [] then 0
    else
      var earlier, c := DueCount(contracts[..|contracts| - 1], company, on, unscopedOnly), contracts[|contracts| - 1];
      if c.lifecycle == Active && c.kind == Standard && (company.Some? ==> c.company == company.value)
      then earlier + if unscopedOnly then |Filter(Due(c, on), NoScope(c))| else |Due(c, on)|
      else earlier
  }

  lemma OneContractsCounts(b: Books, c: Contract, author: Option<nat>, on: Day)
    ensures var r := RunContract(b, c, author, on);
            && |r.created| + r.skippedExisting + r.skippedNoRevision == |RowsToBill(c, on)|
            && b.nextId <= r.books.nextId
            && r.skippedNoRevision == |Filter(RowsToBill(c, on), NoScope(c))|
    ensures var r := RunContract(b, c, author, on);
            && (forall id :: id in r.books.invoices <==> id in b.invoices || id in r.created)
            && (forall id :: id in r.created ==> b.nextId <= id < r.books.nextId)
  {
    hide Due, RunRows, NoScope;
    OnlyActiveContractsBill(b, c, author, on);
    RunIsReported(b, c, RowsToBill(c, on), author);
    if Bills(c) {
      RunContractCounts(b, c, author, on);
    }
  }

  /** The daily run's counts: every due row of a chosen contract once, those without a scope apart, and
      the created ids are exactly the new drafts. */
  lemma {:induction false} DailyRunIsReported(b: Books, contracts: seq<Contract>, company: Option<nat>,
                                              author: Option<nat>, on: Day)
    ensures var r := RunContracts(b, contracts, company, author, on);
            && |r.created| + r.skippedExisting + r.skippedNoRevision == DueCount(contracts, company, on, false)
            && r.skippedNoRevision == DueCount(contracts, company, on, true)
            && b.nextId <= r.books.nextId
    ensures var r := RunContracts(b, contracts, company, author, on);
            && (forall id :: id in r.books.invoices <==> id in b.invoices || id in r.created)
            && (forall id :: id in r.created ==> b.nextId <= id < r.books.nextId)
  {
    hide RunContract, Due, NoScope, Filter;
    if contracts != [] {
      var rest, c := contracts[..|contracts| - 1], contracts[|contracts| - 1];
      DailyRunIsReported(b, rest, company, author, on);
      OneContractsCounts(RunContracts(b, rest, company, author, on).books, c, author, on);
      FilterNone([], NoScope(c));
    }
  }

  /** After the daily run the claimed periods are those claimed before and every due period with a scope
      of an active standard contract of the company asked for. */
  lemma {:induction false} DailyRunIsExact(b: Books, contracts: seq<Contract>, company: Option<nat>,
                                           author: Option<nat>, on: Day, k: ClaimKey)
    ensures k in RunContracts(b, contracts, company, author, on).books.claims <==>
              || k in b.claims
              || exists c, row :: c in contracts && c.lifecycle == Active && c.kind == Standard
                                  && (company.Some? ==> c.company == company.value)
                                  && row in Due(c, on) && !NoScope(c)(row) && k == ClaimKey(c.id, row.periodStart)
  {
    hide RunContract, Due, NoScope;
    if contracts != [] {
      var rest, last := contracts[..|contracts| - 1], contracts[|contracts| - 1];
      DailyRunIsExact(b, rest, company, author, on, k);
      ClaimsAfterRun(RunContracts(b, rest, company, author, on).books, last, author, on, k);
      assert contracts == rest + [last];
      assert forall c :: c in rest ==> c in contracts;
      assert last in contracts;
    }
  }

  lemma RunRowsStep(b: Books, c: Contract, rows: seq<Row>, i: nat, author: Option<nat>)
    requires i < |rows|
    ensures RunRows(b, c, rows[..i + 1], author) == RunRow(RunRows(b, c, rows[..i], author), c, rows[i], author)
  {
    hide RunRow;
    assert rows[..i + 1][..i] == rows[..i];
  }
}
