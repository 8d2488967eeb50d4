/**
 The extra-work register: one line per live job of a customer, kept equal to a projection of the
 jobs. The register row is locked for a whole sync, so syncs of one register follow one another.
 */
module Register {
  import opened Sequences
  import opened Money
  import opened Numbering

  datatype Job = Job(id: nat, title: string, building: nat)

  datatype Ticket = Ticket(id: nat, job: nat, deleted: bool)

  /** What the pricing rule answers; a missing figure counts as zero. */
  datatype Amounts = Amounts(subtotal: Option<int>, vat: Option<int>, total: Option<int>)

  datatype Fields = Fields(name: string, building: nat, sortOrder: nat, hours: int, amount: int, vatPct: int)

  /** A register line; `job` is None on a line nobody's work stands behind. */
  datatype Line = Line(id: nat, job: Option<nat>, fields: Fields)

  /** What a sync reads: the customer's live jobs and tickets, each in id order, and the pricing
      rule applied to a job and its ticket. */
  datatype World = World(jobs: seq<Job>, tickets: seq<Ticket>, price: (Job, Option<Ticket>) -> Amounts)
  {
    predicate Ordered() {
      && (forall i, j :: 0 <= i < j < |jobs| ==> jobs[i].id < jobs[j].id)
      && (forall i, j :: 0 <= i < j < |tickets| ==> tickets[i].id < tickets[j].id)
    }

    ghost predicate Live(job: nat) {
      exists i :: 0 <= i < |jobs| && jobs[i].id == job
    }
  }

  // ----- Values of one line -----

  /** The characters `str.strip()` takes off: Unicode white space. */
  predicate IsSpace(c: char) {
    var u := c as int;
    || 0x09 <= u <= 0x0D || 0x1C <= u <= 0x20 || u == 0x85 || u == 0xA0 || u == 0x1680
    || 0x2000 <= u <= 0x200A || u == 0x2028 || u == 0x2029 || u == 0x202F || u == 0x205F || u == 0x3000
  }

  /** Tab to carriage return, the four separators, space, next line, no-break space, and the typographic
      spaces: 29 characters in all. */
  lemma WhiteSpace(c: char)
    ensures IsSpace(c) <==>
              c as int in {9, 10, 11, 12, 13, 28, 29, 30, 31, 32, 133, 160, 5760, 8192, 8193, 8194, 8195, 8196, 8197,
                           8198, 8199, 8200, 8201, 8202, 8232, 8233, 8239, 8287, 12288}
  {}

  function Strip(s: string): string {
    if s == [] then s
    else if IsSpace(s[0]) then Strip(s[1..])
    else if IsSpace(s[|s| - 1]) then Strip(s[..|s| - 1])
    else s
  }

  function OrZero(x: Option<int>): int {
    match x
    case None => 0
    case Some(v) => v
  }

  /** `_blended_vat_pct` in hundredths of a percent, as the code computes it: a division at 28 digits,
      then the quantize, ties to even; 21.00 when there is no subtotal. */
  function BlendedVatPct(subtotal: Option<int>, vat: Option<int>): int {
    var s, v := OrZero(subtotal), OrZero(vat);
    if s == 0 then 2100
    else
      var pct: int := PercentThenQuantize(Abs(v), Abs(s));
      if (v < 0) != (s < 0) then -pct else pct
  }

  /** The percentage is the nearest hundredth of a percent to vat / subtotal, ties to even, and
      nothing else is: the two roundings of the code amount to one. */
  lemma BlendedVatIsNearest(subtotal: int, vat: int, pct: int)
    requires subtotal != 0 && Abs(vat) < PERCENT_LIMIT
    ensures pct == BlendedVatPct(Some(subtotal), Some(vat))
            <==> NearestTiesEven(if subtotal < 0 then -pct else pct, vat * 10000, Abs(subtotal))
  {
    hide PercentThenQuantize, RoundHalfEven;
    var s, v: nat := Abs(subtotal), Abs(vat);
    var opposite := (vat < 0) != (subtotal < 0);
    PercentAsComputed(v, s);
    var r := if opposite then -pct else pct;
    HalfEvenIsNearest(r, v * 10000, s);
    NearestEvenIsOdd(if subtotal < 0 then -pct else pct, vat * 10000, s);
  }

  lemma NearestEvenIsOdd(r: int, n: int, d: int)
    requires d > 0
    ensures NearestTiesEven(r, n, d) <==> NearestTiesEven(-r, -n, d)
  {
    assert (-r) * d == -(r * d);
  }

  ghost predicate Blank(s: string) {
    forall i :: 0 <= i < |s| ==> IsSpace(s[i])
  }

  /** `s` is `middle` with white space put around it. */
  ghost predicate Surrounds(s: string, left: string, middle: string, right: string) {
    s == left + middle + right && Blank(left) && Blank(right)
  }

  lemma OneMoreSpace(c: char, s: string, left: string, middle: string, right: string)
    requires IsSpace(c) && Surrounds(s, left, middle, right)
    ensures Surrounds([c] + s, [c] + left, middle, right)
    ensures Surrounds(s + [c], left, middle, right + [c])
    ensures (Blank([c] + s) <==> Blank(s)) && (Blank(s + [c]) <==> Blank(s))
  {
    hide IsSpace;
    BlankConcat([c], s);
    BlankConcat(s, [c]);
    BlankConcat([c], left);
    BlankConcat(right, [c]);
  }

  lemma BlankConcat(a: string, b: string)
    ensures Blank(a + b) <==> Blank(a) && Blank(b)
  {
    hide IsSpace;
    if Blank(a + b) {
      assert forall i :: 0 <= i < |a| ==> a[i] == (a + b)[i];
      assert forall i :: 0 <= i < |b| ==> b[i] == (a + b)[|a| + i];
    }
  }

  predicate Trimmed(s: string) {
    s != "" ==> !IsSpace(s[0]) && !IsSpace(s[|s| - 1])
  }

  lemma StripUnfolds(s: string)
    ensures Trimmed(s) ==> Strip(s) == s
    ensures s != "" && IsSpace(s[0]) ==> Strip(s) == Strip(s[1..])
    ensures s != "" && !IsSpace(s[0]) && IsSpace(s[|s| - 1]) ==> Strip(s) == Strip(s[..|s| - 1])
  {
    hide IsSpace;
  }

  /** Stripping takes white space off both ends and nothing else: what is left neither starts nor
      ends with white space, and is empty only when the whole text was blank. */
  lemma {:induction false} StripTrims(s: string) returns (left: string, right: string)
    ensures Surrounds(s, left, Strip(s), right) && Trimmed(Strip(s))
    ensures Strip(s) == "" <==> Blank(s)
    decreases |s|
  {
    hide IsSpace, Surrounds, Blank, Strip;
    StripUnfolds(s);
    if Trimmed(s) {
      left, right := "", "";
      NothingAround(s);
    } else if IsSpace(s[0]) {
      left, right := StripTrims(s[1..]);
      OneMoreSpace(s[0], s[1..], left, Strip(s), right);
      assert s == [s[0]] + s[1..];
      left := [s[0]] + left;
    } else {
      var rest, last := s[..|s| - 1], s[|s| - 1];
      left, right := StripTrims(rest);
      OneMoreSpace(last, rest, left, Strip(s), right);
      assert s == rest + [last];
      right := right + [last];
    }
  }

  lemma NothingAround(s: string)
    requires Trimmed(s)
    ensures Surrounds(s, "", s, "") && (s == "" <==> Blank(s))
  {
    hide IsSpace;
    assert s == "" + s + "";
  }

  function FirstTicket(tickets: seq<Ticket>, job: nat): Option<Ticket> {
    if tickets == [] then None
    else
      var earlier, t := FirstTicket(tickets[..|tickets| - 1], job), tickets[|tickets| - 1];
      if earlier.Some? || t.deleted || t.job != job then earlier else Some(t)
  }

  /** The fields of one job, given its ticket. */
  function FieldsWith(w: World, index: nat, ticket: Option<Ticket>): Fields
    requires index < |w.jobs|
  {
    var job := w.jobs[index];
    var a := w.price(job, ticket);
    var title := Strip(job.title);
    Fields(if title != "" then title else "Extra work #" + Decimal(job.id),
           job.building, index, 0, OrZero(a.total), BlendedVatPct(a.subtotal, a.vat))
  }

  function FieldsFor(w: World, index: nat): Fields
    requires index < |w.jobs|
  {
    FieldsWith(w, index, FirstTicket(w.tickets, w.jobs[index].id))
  }

  /** Of a job's live tickets the one with the lowest id is used. */
  lemma {:induction false} FirstTicketIsLowest(tickets: seq<Ticket>, job: nat)
    requires forall i, j :: 0 <= i < j < |tickets| ==> tickets[i].id < tickets[j].id
    ensures match FirstTicket(tickets, job)
            case None => forall t :: t in tickets ==> t.deleted || t.job != job
            case Some(t) => t in tickets && !t.deleted && t.job == job
                            && forall u :: u in tickets && !u.deleted && u.job == job ==> t.id <= u.id
  {
    if tickets != [] {
      var rest := tickets[..|tickets| - 1];
      FirstTicketIsLowest(rest, job);
      assert forall t :: t in tickets ==> t in rest || t == tickets[|tickets| - 1];
      assert forall t :: t in rest ==> t.id < tickets[|tickets| - 1].id;
    }
  }

  /** `_ticket_map`: the first live ticket of each listed job, in one pass. */
  method TicketMap(w: World) returns (byJob: map<nat, Ticket>)
    ensures forall i :: 0 <= i < |w.jobs| ==>
              FirstTicket(w.tickets, w.jobs[i].id)
              == if w.jobs[i].id in byJob then Some(byJob[w.jobs[i].id]) else None
  {
    var ids := set i | 0 <= i < |w.jobs| :: w.jobs[i].id;
    byJob := map[];
    for i := 0 to |w.tickets|
      invariant forall job :: job in ids ==>
                  FirstTicket(w.tickets[..i], job) == if job in byJob then Some(byJob[job]) else None
    {
      var t := w.tickets[i];
      assert w.tickets[..i + 1][..i] == w.tickets[..i];
      if t.job in ids && !t.deleted && t.job !in byJob {
        byJob := byJob[t.job := t];
      }
    }
    assert w.tickets[..|w.tickets|] == w.tickets;
  }

  // ----- The line set -----

  ghost predicate DistinctJobs(lines: seq<Line>) {
    forall p, q :: 0 <= p < q < |lines| && lines[p].job.Some? ==> lines[p].job != lines[q].job
  }

  function NoJob(): Line -> bool {
    (line: Line) => line.job.None?
  }

  predicate IsLive(w: World, line: Line) {
    line.job.None? || exists i :: 0 <= i < |w.jobs| && w.jobs[i].id == line.job.value
  }

  function Kept(w: World): Line -> bool {
    (line: Line) => IsLive(w, line)
  }

  /** The table's order: by sort order, then by id. */
  predicate Follows(a: Line, b: Line) {
    a.fields.sortOrder > b.fields.sortOrder || (a.fields.sortOrder == b.fields.sortOrder && a.id > b.id)
  }

  /** Where the last line of a job stands, last in the table's order. */
  function Position(lines: seq<Line>, job: nat): (p: Option<nat>)
    ensures p.Some? ==> p.value < |lines|
  {
    if lines == [] then None
    else
      var earlier, last := Position(lines[..|lines| - 1], job), lines[|lines| - 1];
      if last.job == Some(job) && (earlier.None? || Follows(last, lines[earlier.value])) then Some(|lines| - 1)
      else earlier
  }

  lemma {:induction false} PositionFinds(lines: seq<Line>, job: nat)
    ensures match Position(lines, job)
            case None => forall p :: 0 <= p < |lines| ==> lines[p].job != Some(job)
            case Some(p) => p < |lines| && lines[p].job == Some(job)
                            && forall q :: 0 <= q < |lines| && lines[q].job == Some(job)
                                           ==> !Follows(lines[q], lines[p])
  {
    if lines != [] {
      PositionFinds(lines[..|lines| - 1], job);
    }
  }

  /** The line a job is mirrored by is the one with the highest sort order, ties by highest id. */
  ghost predicate IsLastOf(lines: seq<Line>, job: nat, position: Option<nat>) {
    match position
    case None => forall line :: line in lines ==> line.job != Some(job)
    case Some(p) =>
      && p < |lines| && lines[p].job == Some(job)
      && forall line :: line in lines && line.job == Some(job) ==>
           || line.fields.sortOrder < lines[p].fields.sortOrder
           || (line.fields.sortOrder == lines[p].fields.sortOrder && line.id <= lines[p].id)
  }

  lemma PositionIsLastOf(lines: seq<Line>, job: nat)
    ensures IsLastOf(lines, job, Position(lines, job))
  {
    hide Position;
    PositionFinds(lines, job);
  }

  datatype Sync = Sync(lines: seq<Line>, nextId: nat, added: nat, updated: nat)

  /** One job: its line is created when missing and rewritten when a field differs. */
  function SyncJob(s: Sync, job: nat, fields: Fields): Sync {
    match Position(s.lines, job)
    case None => Sync(s.lines + [Line(s.nextId, Some(job), fields)], s.nextId + 1, s.added + 1, s.updated)
    case Some(p) =>
      PositionFinds(s.lines, job);
      if s.lines[p].fields == fields then s
      else s.(lines := s.lines[p := s.lines[p].(fields := fields)], updated := s.updated + 1)
  }

  function SyncJobs(w: World, s: Sync, n: nat): Sync
    requires n <= |w.jobs|
  {
    if n == 0 then s else SyncJob(SyncJobs(w, s, n - 1), w.jobs[n - 1].id, FieldsFor(w, n - 1))
  }

  function Synced(w: World, lines: seq<Line>, nextId: nat): seq<Line> {
    Filter(SyncJobs(w, Sync(lines, nextId, 0, 0), |w.jobs|).lines, Kept(w))
  }

  /** The job has a line, and that line carries these values. */
  ghost predicate Shows(lines: seq<Line>, job: nat, fields: Fields) {
    exists p :: 0 <= p < |lines| && lines[p].job == Some(job) && lines[p].fields == fields
  }

  ghost predicate Mentions(lines: seq<Line>, job: nat) {
    exists p :: 0 <= p < |lines| && lines[p].job == Some(job)
  }

  lemma SyncJobEffect(s: Sync, job: nat, fields: Fields)
    requires DistinctJobs(s.lines)
    ensures DistinctJobs(SyncJob(s, job, fields).lines)
    ensures Shows(SyncJob(s, job, fields).lines, job, fields)
    ensures forall j, f :: j != job && Shows(s.lines, j, f) ==> Shows(SyncJob(s, job, fields).lines, j, f)
    ensures forall j :: Mentions(SyncJob(s, job, fields).lines, j) <==> Mentions(s.lines, j) || j == job
  {
    PositionFinds(s.lines, job);
    var after := SyncJob(s, job, fields).lines;
    var p := if Position(s.lines, job).None? then |s.lines| else Position(s.lines, job).value;
    assert after[p].job == Some(job) && after[p].fields == fields;
    forall j: nat, f | j != job && Shows(s.lines, j, f) ensures Shows(after, j, f) {
      var q :| 0 <= q < |s.lines| && s.lines[q].job == Some(j) && s.lines[q].fields == f;
      assert after[q] == s.lines[q];
    }
    forall j: nat | Mentions(s.lines, j) ensures Mentions(after, j) {
      var q :| 0 <= q < |s.lines| && s.lines[q].job == Some(j);
      assert after[q].job == Some(j);
    }
  }

  lemma SyncJobKeepsManual(s: Sync, job: nat, fields: Fields)
    ensures Filter(SyncJob(s, job, fields).lines, NoJob()) == Filter(s.lines, NoJob())
  {
    PositionFinds(s.lines, job);
    match Position(s.lines, job)
    case None => FilterSnoc(s.lines, Line(s.nextId, Some(job), fields), NoJob());
    case Some(p) =>
      var before, after := s.lines, SyncJob(s, job, fields).lines;
      assert before == before[..p] + [before[p]] + before[p + 1..];
      assert after == before[..p] + [after[p]] + before[p + 1..];
      FilterConcat(before[..p] + [before[p]], before[p + 1..], NoJob());
      FilterConcat(before[..p] + [after[p]], before[p + 1..], NoJob());
      FilterSnoc(before[..p], before[p], NoJob());
      FilterSnoc(before[..p], after[p], NoJob());
  }

  lemma {:induction false} SyncJobsEffect(w: World, s: Sync, n: nat)
    requires w.Ordered() && DistinctJobs(s.lines) && n <= |w.jobs|
    ensures DistinctJobs(SyncJobs(w, s, n).lines)
    ensures forall i :: 0 <= i < n ==> Shows(SyncJobs(w, s, n).lines, w.jobs[i].id, FieldsFor(w, i))
    ensures Filter(SyncJobs(w, s, n).lines, NoJob()) == Filter(s.lines, NoJob())
  {
    hide SyncJob, FieldsFor, Shows, DistinctJobs;
    if n > 0 {
      SyncJobsEffect(w, s, n - 1);
      SyncJobEffect(SyncJobs(w, s, n - 1), w.jobs[n - 1].id, FieldsFor(w, n - 1));
      SyncJobKeepsManual(SyncJobs(w, s, n - 1), w.jobs[n - 1].id, FieldsFor(w, n - 1));
    }
  }

  lemma {:induction false} AddedIsGrowth(w: World, s: Sync, n: nat)
    requires n <= |w.jobs|
    ensures |SyncJobs(w, s, n).lines| - SyncJobs(w, s, n).added == |s.lines| - s.added
  {
    hide FieldsFor, Position;
    if n > 0 {
      AddedIsGrowth(w, s, n - 1);
      PositionFinds(SyncJobs(w, s, n - 1).lines, w.jobs[n - 1].id);
    }
  }

  // ----- What the counters count -----

  ghost function Missing(w: World, lines: seq<Line>, n: nat): set<nat>
    requires n <= |w.jobs|
  {
    set i | 0 <= i < n && !Mentions(lines, w.jobs[i].id)
  }

  ghost function Outdated(w: World, lines: seq<Line>, n: nat): set<nat>
    requires n <= |w.jobs|
  {
    set i | 0 <= i < n && Mentions(lines, w.jobs[i].id) && !Shows(lines, w.jobs[i].id, FieldsFor(w, i))
  }

  lemma OtherJobsUntouched(s: Sync, job: nat, fields: Fields, j: nat, f: Fields)
    requires DistinctJobs(s.lines) && j != job
    ensures Shows(SyncJob(s, job, fields).lines, j, f) <==> Shows(s.lines, j, f)
    ensures Mentions(SyncJob(s, job, fields).lines, j) <==> Mentions(s.lines, j)
  {
    SyncJobEffect(s, job, fields);
    var after := SyncJob(s, job, fields).lines;
    if Shows(after, j, f) {
      PositionFinds(s.lines, job);
      var p :| 0 <= p < |after| && after[p].job == Some(j) && after[p].fields == f;
      assert p < |s.lines| && s.lines[p] == after[p];
    }
  }

  lemma {:induction false} LaterJobsUntouched(w: World, s: Sync, n: nat, i: nat)
    requires w.Ordered() && DistinctJobs(s.lines) && n <= i < |w.jobs|
    ensures Mentions(SyncJobs(w, s, n).lines, w.jobs[i].id) <==> Mentions(s.lines, w.jobs[i].id)
    ensures Shows(SyncJobs(w, s, n).lines, w.jobs[i].id, FieldsFor(w, i))
            <==> Shows(s.lines, w.jobs[i].id, FieldsFor(w, i))
  {
    hide SyncJob, FieldsFor, Shows, Mentions, DistinctJobs;
    if n > 0 {
      LaterJobsUntouched(w, s, n - 1, i);
      SyncJobsEffect(w, s, n - 1);
      OtherJobsUntouched(SyncJobs(w, s, n - 1), w.jobs[n - 1].id, FieldsFor(w, n - 1), w.jobs[i].id, FieldsFor(w, i));
    }
  }

  lemma CountedOnce(s: Sync, job: nat, fields: Fields)
    requires DistinctJobs(s.lines)
    ensures SyncJob(s, job, fields).added == s.added + if Mentions(s.lines, job) then 0 else 1
    ensures SyncJob(s, job, fields).updated
            == s.updated + if Mentions(s.lines, job) && !Shows(s.lines, job, fields) then 1 else 0
  {
    PositionFinds(s.lines, job);
    if Shows(s.lines, job, fields) {
      var p :| 0 <= p < |s.lines| && s.lines[p].job == Some(job) && s.lines[p].fields == fields;
      assert p == Position(s.lines, job).value;
    }
  }

  /** `added` counts the live jobs that had no line, `updated` those whose line showed other values. */
  lemma {:induction false} CountersAreExact(w: World, s: Sync, n: nat)
    requires w.Ordered() && DistinctJobs(s.lines) && n <= |w.jobs|
    ensures SyncJobs(w, s, n).added == s.added + |Missing(w, s.lines, n)|
    ensures SyncJobs(w, s, n).updated == s.updated + |Outdated(w, s.lines, n)|
  {
    hide SyncJob, FieldsFor, Shows, Mentions, DistinctJobs;
    if n > 0 {
      var k := n - 1;
      CountersAreExact(w, s, k);
      SyncJobsEffect(w, s, k);
      CountedOnce(SyncJobs(w, s, k), w.jobs[k].id, FieldsFor(w, k));
      LaterJobsUntouched(w, s, k, k);
      MissingStep(w, s.lines, k);
      OutdatedStep(w, s.lines, k);
    }
  }

  lemma MissingStep(w: World, lines: seq<Line>, k: nat)
    requires k < |w.jobs|
    ensures |Missing(w, lines, k + 1)| == |Missing(w, lines, k)| + if Mentions(lines, w.jobs[k].id) then 0 else 1
    ensures Missing(w, lines, 0) == {}
  {
    hide Mentions;
    assert Missing(w, lines, k + 1) == Missing(w, lines, k) + if Mentions(lines, w.jobs[k].id) then {} else {k};
  }

  lemma OutdatedStep(w: World, lines: seq<Line>, k: nat)
    requires k < |w.jobs|
    ensures |Outdated(w, lines, k + 1)|
            == |Outdated(w, lines, k)|
               + if Mentions(lines, w.jobs[k].id) && !Shows(lines, w.jobs[k].id, FieldsFor(w, k)) then 1 else 0
  {
    hide Mentions, Shows, FieldsFor;
    assert Outdated(w, lines, k + 1)
        == Outdated(w, lines, k)
           + if Mentions(lines, w.jobs[k].id) && !Shows(lines, w.jobs[k].id, FieldsFor(w, k)) then {k} else {};
  }

  // ----- Duplicates -----

  /** Two lines mirror the same job. Nothing in the table forbids it. */
  ghost predicate Duplicated(lines: seq<Line>, job: nat) {
    exists p, q :: 0 <= p < q < |lines| && lines[p].job == Some(job) && lines[q].job == Some(job)
  }

  lemma SyncJobDuplicates(s: Sync, job: nat, fields: Fields, j: nat)
    ensures Duplicated(SyncJob(s, job, fields).lines, j) <==> Duplicated(s.lines, j)
  {
    PositionFinds(s.lines, job);
    var before, after := s.lines, SyncJob(s, job, fields).lines;
    assert forall p :: 0 <= p < |before| ==> after[p].job == before[p].job;
    if Duplicated(before, j) {
      var p, q :| 0 <= p < q < |before| && before[p].job == Some(j) && before[q].job == Some(j);
      assert after[p].job == Some(j) && after[q].job == Some(j);
    }
  }

  lemma {:induction false} SyncJobsDuplicates(w: World, s: Sync, n: nat, j: nat)
    requires n <= |w.jobs|
    ensures Duplicated(SyncJobs(w, s, n).lines, j) <==> Duplicated(s.lines, j)
  {
    hide SyncJob, FieldsFor, Duplicated;
    if n > 0 {
      SyncJobsDuplicates(w, s, n - 1, j);
      SyncJobDuplicates(SyncJobs(w, s, n - 1), w.jobs[n - 1].id, FieldsFor(w, n - 1), j);
    }
  }

  lemma DuplicatedSnoc(lines: seq<Line>, line: Line, j: nat)
    ensures Duplicated(lines + [line], j) <==> Duplicated(lines, j) || (line.job == Some(j) && Mentions(lines, j))
    ensures Mentions(lines + [line], j) <==> Mentions(lines, j) || line.job == Some(j)
  {
    var all := lines + [line];
    assert all[|lines|] == line && forall p :: 0 <= p < |lines| ==> all[p] == lines[p];
    if Duplicated(lines, j) {
      var p, q :| 0 <= p < q < |lines| && lines[p].job == Some(j) && lines[q].job == Some(j);
      assert all[p].job == Some(j) && all[q].job == Some(j);
    }
    if Mentions(lines, j) {
      var p :| 0 <= p < |lines| && lines[p].job == Some(j);
      assert all[p].job == Some(j);
    }
  }

  lemma {:induction false} KeptDuplicates(w: World, lines: seq<Line>, j: nat)
    ensures Duplicated(Filter(lines, Kept(w)), j) <==> Duplicated(lines, j) && w.Live(j)
    ensures Mentions(Filter(lines, Kept(w)), j) <==> Mentions(lines, j) && w.Live(j)
  {
    hide Duplicated, Mentions, IsLive, World.Live;
    if lines == [] {
      NoLines(j);
    } else {
      var rest, line := lines[..|lines| - 1], lines[|lines| - 1];
      KeptDuplicates(w, rest, j);
      DuplicatedSnoc(rest, line, j);
      DuplicatedSnoc(Filter(rest, Kept(w)), line, j);
      LiveLine(w, line);
      assert lines == rest + [line];
    }
  }

  lemma NoLines(j: nat)
    ensures !Duplicated([], j) && !Mentions([], j)
  {}

  lemma LiveLine(w: World, line: Line)
    ensures IsLive(w, line) <==> (line.job.Some? ==> w.Live(line.job.value))
  {}

  lemma SyncKeepsDuplicates(w: World, lines: seq<Line>, nextId: nat, j: nat)
    ensures Duplicated(Synced(w, lines, nextId), j) <==> Duplicated(lines, j) && w.Live(j)
  {
    hide Kept, SyncJobs, World.Live, Duplicated;
    KeptDuplicates(w, SyncJobs(w, Sync(lines, nextId, 0, 0), |w.jobs|).lines, j);
    SyncJobsDuplicates(w, Sync(lines, nextId, 0, 0), |w.jobs|, j);
  }

  /** Exactly when a sync ends with one line per job: when no live job had two lines before. The
      sync rewrites only one of the two and deletes neither. */
  lemma OneLinePerJobIff(w: World, lines: seq<Line>, nextId: nat)
    ensures DistinctJobs(Synced(w, lines, nextId)) <==> forall j :: w.Live(j) ==> !Duplicated(lines, j)
  {
    hide Synced, World.Live;
    var after := Synced(w, lines, nextId);
    forall j: nat ensures Duplicated(after, j) <==> Duplicated(lines, j) && w.Live(j) {
      SyncKeepsDuplicates(w, lines, nextId, j);
    }
    if forall j :: w.Live(j) ==> !Duplicated(lines, j) {
      forall p, q | 0 <= p < q < |after| && after[p].job.Some? ensures after[p].job != after[q].job {
        assert !Duplicated(after, after[p].job.value);
      }
    }
  }

  /** The condition is needed: two lines for the one live job, whatever their values, are both still
      there after a sync and after the next one. */
  lemma DuplicateSurvives(w: World, a: Fields, b: Fields, nextId: nat)
    requires w.jobs == [Job(7, "Windows", 1)]
    ensures var lines := [Line(1, Some(7), a), Line(2, Some(7), b)];
            && Duplicated(Synced(w, lines, nextId), 7)
            && Duplicated(Synced(w, Synced(w, lines, nextId), nextId), 7)
            && !DistinctJobs(Synced(w, lines, nextId))
  {
    hide Synced, Kept, SyncJobs;
    var lines := [Line(1, Some(7), a), Line(2, Some(7), b)];
    assert w.Live(7) by { assert w.jobs[0].id == 7; }
    assert lines[0].job == lines[1].job == Some(7);
    SyncKeepsDuplicates(w, lines, nextId, 7);
    SyncKeepsDuplicates(w, Synced(w, lines, nextId), nextId, 7);
  }

  lemma {:induction false} KeptDistinct(lines: seq<Line>, keep: Line -> bool)
    requires DistinctJobs(lines)
    ensures DistinctJobs(Filter(lines, keep))
  {
    if lines != [] {
      var rest, line := lines[..|lines| - 1], lines[|lines| - 1];
      KeptDistinct(rest, keep);
      FilterMembers(rest, keep);
      var kept := Filter(rest, keep);
      forall p | 0 <= p < |kept| && kept[p].job.Some? ensures kept[p].job != line.job {
        assert kept[p] in kept;
        var q :| 0 <= q < |rest| && rest[q] == kept[p];
        assert lines[q] == rest[q];
      }
    }
  }

  lemma {:induction false} KeptManual(w: World, lines: seq<Line>)
    ensures Filter(Filter(lines, Kept(w)), NoJob()) == Filter(lines, NoJob())
  {
    hide IsLive;
    if lines != [] {
      var rest, line := lines[..|lines| - 1], lines[|lines| - 1];
      KeptManual(w, rest);
      FilterSnoc(Filter(rest, Kept(w)), line, NoJob());
      NoJobIsLive(w, line);
    }
  }

  lemma NoJobIsLive(w: World, line: Line)
    ensures line.job.None? ==> IsLive(w, line)
    ensures line.job.Some? && w.Live(line.job.value) ==> IsLive(w, line)
  {}

  lemma KeptShows(w: World, lines: seq<Line>, job: nat, fields: Fields)
    requires w.Live(job) && Shows(lines, job, fields)
    ensures Shows(Filter(lines, Kept(w)), job, fields)
  {
    hide IsLive;
    var kept := Filter(lines, Kept(w));
    var p :| 0 <= p < |lines| && lines[p].job == Some(job) && lines[p].fields == fields;
    FilterMembers(lines, Kept(w));
    NoJobIsLive(w, lines[p]);
    assert lines[p] in kept;
    var q :| 0 <= q < |kept| && kept[q] == lines[p];
  }

  /** The register after a sync is the projection of the live jobs: exactly one line per live job,
      with that job's current values, no line for any other job, and every line without a job left
      as it was and in order. */
  ghost predicate IsProjection(w: World, before: seq<Line>, after: seq<Line>) {
    && DistinctJobs(after)
    && (forall i :: 0 <= i < |w.jobs| ==> Shows(after, w.jobs[i].id, FieldsFor(w, i)))
    && (forall line :: line in after ==> IsLive(w, line))
    && Filter(after, NoJob()) == Filter(before, NoJob())
  }

  lemma SyncProjects(w: World, lines: seq<Line>, nextId: nat)
    requires w.Ordered() && DistinctJobs(lines)
    ensures IsProjection(w, lines, Synced(w, lines, nextId))
  {
    hide IsLive, Shows, DistinctJobs, FieldsFor, SyncJobs;
    var all := SyncJobs(w, Sync(lines, nextId, 0, 0), |w.jobs|).lines;
    SyncJobsEffect(w, Sync(lines, nextId, 0, 0), |w.jobs|);
    KeptDistinct(all, Kept(w));
    KeptManual(w, all);
    FilterMembers(all, Kept(w));
    forall i | 0 <= i < |w.jobs| ensures Shows(Synced(w, lines, nextId), w.jobs[i].id, FieldsFor(w, i)) {
      KeptShows(w, all, w.jobs[i].id, FieldsFor(w, i));
    }
  }

  lemma ShownIsKept(s: Sync, job: nat, fields: Fields)
    requires DistinctJobs(s.lines) && Shows(s.lines, job, fields)
    ensures SyncJob(s, job, fields) == s
  {
    hide Position;
    PositionFinds(s.lines, job);
  }

  lemma {:induction false} NothingToSync(w: World, s: Sync, n: nat)
    requires w.Ordered() && n <= |w.jobs| && DistinctJobs(s.lines)
    requires forall i :: 0 <= i < |w.jobs| ==> Shows(s.lines, w.jobs[i].id, FieldsFor(w, i))
    ensures SyncJobs(w, s, n) == s
  {
    hide FieldsFor, SyncJob, DistinctJobs, Shows;
    if n > 0 {
      NothingToSync(w, s, n - 1);
      ShownIsKept(s, w.jobs[n - 1].id, FieldsFor(w, n - 1));
    }
  }

  /** An immediate second sync adds, updates and removes nothing. */
  lemma SecondSyncChangesNothing(w: World, lines: seq<Line>, nextId: nat, nextId': nat)
    requires w.Ordered() && DistinctJobs(lines)
    ensures SyncJobs(w, Sync(Synced(w, lines, nextId), nextId', 0, 0), |w.jobs|)
            == Sync(Synced(w, lines, nextId), nextId', 0, 0)
    ensures Synced(w, Synced(w, lines, nextId), nextId') == Synced(w, lines, nextId)
  {
    hide IsLive, Shows, DistinctJobs, FieldsFor, Filter;
    SyncProjects(w, lines, nextId);
    NothingToSync(w, Sync(Synced(w, lines, nextId), nextId', 0, 0), |w.jobs|);
    FilterAll(Synced(w, lines, nextId), Kept(w));
  }

  // ----- What the synced lines say -----

  /** The job's ticket: its live ticket with the lowest id, None when it has none. */
  ghost predicate IsTicketOf(w: World, job: nat, ticket: Option<Ticket>) {
    match ticket
    case None => forall t :: t in w.tickets ==> t.deleted || t.job != job
    case Some(t) =>
      && t in w.tickets && !t.deleted && t.job == job
      && forall u :: u in w.tickets && !u.deleted && u.job == job ==> t.id <= u.id
  }

  /** A line's name: the title without white space around it, or the numbered fallback when that
      leaves nothing. */
  ghost predicate NamedAfter(name: string, job: Job) {
    || (Blank(job.title) && name == "Extra work #" + Decimal(job.id))
    || (name != "" && !IsSpace(name[0]) && !IsSpace(name[|name| - 1])
        && exists left, right :: Surrounds(job.title, left, name, right))
  }

  /** The percentage of a price, by its figures alone: 21.00 without a subtotal, otherwise the nearest
      hundredth of a percent of VAT to subtotal, ties to even. */
  ghost predicate BlendedFrom(pct: int, price: Amounts) {
    var s := match price.subtotal case None => 0 case Some(x) => x;
    var v := match price.vat case None => 0 case Some(x) => x;
    if s == 0 then pct == 2100
    else Abs(v) < PERCENT_LIMIT ==> NearestTiesEven(if s < 0 then -pct else pct, v * 10000, Abs(s))
  }

  lemma BlendedIsFrom(price: Amounts)
    ensures BlendedFrom(BlendedVatPct(price.subtotal, price.vat), price)
  {
    hide PercentThenQuantize, NearestTiesEven;
    var s, v := OrZero(price.subtotal), OrZero(price.vat);
    var pct := BlendedVatPct(price.subtotal, price.vat);
    assert pct == BlendedVatPct(Some(s), Some(v));
    if s != 0 && Abs(v) < PERCENT_LIMIT {
      BlendedVatIsNearest(s, v, pct);
    }
  }

  lemma NameIsAfter(w: World, index: nat, ticket: Option<Ticket>)
    requires index < |w.jobs|
    ensures NamedAfter(FieldsWith(w, index, ticket).name, w.jobs[index])
  {
    hide IsSpace, Strip, Blank, Surrounds, BlendedVatPct;
    var left, right := StripTrims(w.jobs[index].title);
  }

  lemma TicketOf(w: World, job: nat)
    requires w.Ordered()
    ensures IsTicketOf(w, job, FirstTicket(w.tickets, job))
  {
    FirstTicketIsLowest(w.tickets, job);
  }

  /** After a sync each live job has exactly one line, at its place in the list, in its building, with no
      hours, named after it, with the total the pricing rule gives the job and its ticket (0 when the
      rule gives none) and the percentage of that price. Every other line has no job. */
  lemma SyncedLineIsExact(w: World, lines: seq<Line>, nextId: nat, i: nat)
    returns (line: Line, ticket: Option<Ticket>)
    requires w.Ordered() && DistinctJobs(lines) && i < |w.jobs|
    ensures line in Synced(w, lines, nextId) && line.job == Some(w.jobs[i].id)
    ensures forall other :: other in Synced(w, lines, nextId) && other.job == line.job ==> other == line
    ensures forall other :: other in Synced(w, lines, nextId) && other.job.Some? ==>
              exists n :: 0 <= n < |w.jobs| && other.job == Some(w.jobs[n].id)
    ensures IsTicketOf(w, w.jobs[i].id, ticket)
    ensures var price := w.price(w.jobs[i], ticket);
            && line.fields.amount == (match price.total case None => 0 case Some(total) => total)
            && line.fields.building == w.jobs[i].building
            && line.fields.sortOrder == i
            && line.fields.hours == 0
            && NamedAfter(line.fields.name, w.jobs[i])
            && BlendedFrom(line.fields.vatPct, price)
  {
    hide Synced, NamedAfter, BlendedFrom, BlendedVatPct, Strip, FirstTicket;
    SyncProjects(w, lines, nextId);
    var after := Synced(w, lines, nextId);
    ticket := FirstTicket(w.tickets, w.jobs[i].id);
    TicketOf(w, w.jobs[i].id);
    NameIsAfter(w, i, ticket);
    BlendedIsFrom(w.price(w.jobs[i], ticket));
    assert Shows(after, w.jobs[i].id, FieldsFor(w, i));
    var p :| 0 <= p < |after| && after[p].job == Some(w.jobs[i].id) && after[p].fields == FieldsFor(w, i);
    line := after[p];
  }

  // ----- The register's money -----

  /** The sum of the amounts on the lines that mirror a job. */
  function MirroredAmount(lines: seq<Line>): int {
    if lines == [] then 0
    else MirroredAmount(lines[..|lines| - 1])
         + if lines[|lines| - 1].job.Some? then lines[|lines| - 1].fields.amount else 0
  }

  /** What the pricing rule gives a job as total, with the ticket the sync uses for it. */
  function PricedTotal(w: World, job: Job): int {
    match w.price(job, FirstTicket(w.tickets, job.id)).total
    case None => 0
    case Some(total) => total
  }

  function PricedTotals(w: World, n: nat): int
    requires n <= |w.jobs|
  {
    if n == 0 then 0 else PricedTotals(w, n - 1) + PricedTotal(w, w.jobs[n - 1])
  }

  function AmountOf(lines: seq<Line>, job: nat): int {
    match Position(lines, job)
    case None => 0
    case Some(p) => lines[p].fields.amount
  }

  function AmountsOf(w: World, lines: seq<Line>, n: nat): int
    requires n <= |w.jobs|
  {
    if n == 0 then 0 else AmountsOf(w, lines, n - 1) + AmountOf(lines, w.jobs[n - 1].id)
  }

  lemma {:induction false} OneMoreLine(w: World, rest: seq<Line>, line: Line, n: nat)
    requires w.Ordered() && DistinctJobs(rest + [line]) && n <= |w.jobs|
    ensures AmountsOf(w, rest + [line], n)
            == AmountsOf(w, rest, n)
               + if exists i :: 0 <= i < n && line.job == Some(w.jobs[i].id) then line.fields.amount else 0
  {
    hide Follows;
    if n > 0 {
      OneMoreLine(w, rest, line, n - 1);
      var lines, job := rest + [line], w.jobs[n - 1].id;
      assert lines[..|lines| - 1] == rest;
      if line.job == Some(job) {
        PositionFinds(rest, job);
        assert forall p :: 0 <= p < |rest| ==> rest[p] == lines[p];
        assert Position(rest, job) == None;
      }
    }
  }

  lemma {:induction false} MirroredIsByJob(w: World, lines: seq<Line>)
    requires w.Ordered() && DistinctJobs(lines)
    requires forall line :: line in lines && line.job.Some? ==>
               exists i :: 0 <= i < |w.jobs| && line.job == Some(w.jobs[i].id)
    ensures MirroredAmount(lines) == AmountsOf(w, lines, |w.jobs|)
  {
    hide AmountOf;
    if lines == [] {
      NoAmounts(w, |w.jobs|);
    } else {
      var rest, line := lines[..|lines| - 1], lines[|lines| - 1];
      assert lines == rest + [line];
      MirroredIsByJob(w, rest);
      OneMoreLine(w, rest, line, |w.jobs|);
    }
  }

  lemma {:induction false} NoAmounts(w: World, n: nat)
    requires n <= |w.jobs|
    ensures AmountsOf(w, [], n) == 0
  {
    if n > 0 {
      NoAmounts(w, n - 1);
    }
  }

  lemma {:induction false} AmountsArePriced(w: World, lines: seq<Line>, n: nat)
    requires DistinctJobs(lines) && n <= |w.jobs|
    requires forall i :: 0 <= i < n ==> Shows(lines, w.jobs[i].id, FieldsFor(w, i))
    ensures AmountsOf(w, lines, n) == PricedTotals(w, n)
  {
    hide FirstTicket, Strip, BlendedVatPct;
    if n > 0 {
      AmountsArePriced(w, lines, n - 1);
      PositionFinds(lines, w.jobs[n - 1].id);
      assert Shows(lines, w.jobs[n - 1].id, FieldsFor(w, n - 1));
    }
  }

  /** Money is conserved: after a sync the mirrored lines add up to what the pricing rule gives all live
      jobs together. */
  lemma RegisterHoldsTheMoney(w: World, lines: seq<Line>, nextId: nat)
    requires w.Ordered() && DistinctJobs(lines)
    ensures MirroredAmount(Synced(w, lines, nextId)) == PricedTotals(w, |w.jobs|)
  {
    hide Synced, FieldsFor, Shows, DistinctJobs;
    SyncProjects(w, lines, nextId);
    MirroredIsByJob(w, Synced(w, lines, nextId));
    AmountsArePriced(w, Synced(w, lines, nextId), |w.jobs|);
  }

  // ----- When a second sync is idle -----

  /** The table's primary key. */
  ghost predicate UniqueIds(lines: seq<Line>) {
    forall p, q :: 0 <= p < q < |lines| ==> lines[p].id != lines[q].id
  }

  /** The last line of a job in the table's order, the line with id `skip` left aside. */
  function LastLine(lines: seq<Line>, job: nat, skip: Option<nat>): Option<Line> {
    if lines == [] then None
    else
      var earlier, line := LastLine(lines[..|lines| - 1], job, skip), lines[|lines| - 1];
      if line.job == Some(job) && skip != Some(line.id) && (earlier.None? || Follows(line, earlier.value))
      then Some(line) else earlier
  }

  /** A sync leaves the job with its last line up to date. Only that line can have been rewritten, and
      rewriting moves it to the job's place `fields.sortOrder`; then either no other line of the job
      comes after it there, or the last of those others was up to date already. */
  predicate Settles(lines: seq<Line>, job: nat, fields: Fields) {
    match LastLine(lines, job, None)
    case None => true
    case Some(last) =>
      match LastLine(lines, job, Some(last.id))
      case None => true
      case Some(other) => !Follows(other, last.(fields := fields)) || other.fields == fields
  }

  predicate Candidate(line: Line, job: nat, skip: Option<nat>) {
    line.job == Some(job) && skip != Some(line.id)
  }

  ghost predicate IsLast(line: Line, lines: seq<Line>, job: nat, skip: Option<nat>) {
    && line in lines && Candidate(line, job, skip)
    && forall other :: other in lines && Candidate(other, job, skip) ==> !Follows(other, line)
  }

  lemma {:induction false} LastLineIsLast(lines: seq<Line>, job: nat, skip: Option<nat>)
    ensures match LastLine(lines, job, skip)
            case None => forall line :: line in lines ==> !Candidate(line, job, skip)
            case Some(line) => IsLast(line, lines, job, skip)
  {
    if lines != [] {
      var rest, line := lines[..|lines| - 1], lines[|lines| - 1];
      LastLineIsLast(rest, job, skip);
      assert lines == rest + [line];
    }
  }

  /** Lines of the job with the same id are the same line. */
  ghost predicate Identified(lines: seq<Line>, job: nat) {
    forall a, b :: a in lines && b in lines && a.job == b.job == Some(job) && a.id == b.id ==> a == b
  }

  lemma LastIsUnique(a: Line, b: Line, lines: seq<Line>, job: nat, skip: Option<nat>)
    requires Identified(lines, job) && IsLast(a, lines, job, skip) && IsLast(b, lines, job, skip)
    ensures a == b
  {}

  ghost predicate SameLinesOf(job: nat, a: seq<Line>, b: seq<Line>) {
    forall line: Line :: line.job == Some(job) ==> (line in a <==> line in b)
  }

  lemma SameLast(job: nat, a: seq<Line>, b: seq<Line>, skip: Option<nat>)
    requires SameLinesOf(job, a, b) && Identified(a, job)
    ensures LastLine(a, job, skip) == LastLine(b, job, skip)
  {
    hide Follows;
    LastLineIsLast(a, job, skip);
    LastLineIsLast(b, job, skip);
    if LastLine(b, job, skip).Some? {
      LastIsUnique(LastLine(a, job, skip).value, LastLine(b, job, skip).value, a, job, skip);
    }
  }

  /** The line a sync looks at for a job shows these values. */
  predicate Current(lines: seq<Line>, job: nat, fields: Fields) {
    LastLine(lines, job, None).Some? && LastLine(lines, job, None).value.fields == fields
  }

  lemma {:induction false} PositionIsLast(lines: seq<Line>, job: nat)
    ensures LastLine(lines, job, None)
            == match Position(lines, job)
               case None => None
               case Some(p) => Some(lines[p])
  {
    hide Follows;
    if lines != [] {
      PositionIsLast(lines[..|lines| - 1], job);
    }
  }

  /** What one job's step does to the lines of every job. */
  lemma StepOnLines(s: Sync, job: nat, fields: Fields)
    requires UniqueIds(s.lines)
    ensures match LastLine(s.lines, job, None)
            case None =>
              forall line :: line in SyncJob(s, job, fields).lines
                             <==> line in s.lines || line == Line(s.nextId, Some(job), fields)
            case Some(last) =>
              forall line :: line in SyncJob(s, job, fields).lines
                             <==> (line in s.lines && line != last) || line == last.(fields := fields)
  {
    hide Position, SyncJob, LastLine;
    SyncJobUnfolds(s, job, fields);
    PositionIsLast(s.lines, job);
    if Position(s.lines, job).Some? {
      var p := Position(s.lines, job).value;
      if s.lines[p].fields == fields {
        assert s.lines[p].(fields := fields) == s.lines[p];
      } else {
        ReplacedLine(s.lines, p, s.lines[p].(fields := fields));
      }
    }
  }

  lemma ReplacedLine(lines: seq<Line>, p: nat, changed: Line)
    requires UniqueIds(lines) && p < |lines|
    ensures forall line :: line in lines[p := changed] <==> (line in lines && line != lines[p]) || line == changed
  {
    var after := lines[p := changed];
    forall line | line in lines && line != lines[p] ensures line in after {
      var k :| 0 <= k < |lines| && lines[k] == line;
      assert after[k] == line;
    }
    assert after[p] == changed;
  }

  lemma StepKeepsIds(s: Sync, job: nat, fields: Fields)
    requires UniqueIds(s.lines) && forall line :: line in s.lines ==> line.id < s.nextId
    ensures UniqueIds(SyncJob(s, job, fields).lines)
    ensures forall line :: line in SyncJob(s, job, fields).lines ==> line.id < SyncJob(s, job, fields).nextId
  {
    hide Position;
    PositionFinds(s.lines, job);
  }

  lemma OtherLinesKept(s: Sync, job: nat, fields: Fields, other: nat)
    requires UniqueIds(s.lines) && other != job
    ensures SameLinesOf(other, SyncJob(s, job, fields).lines, s.lines)
  {
    hide SyncJob, LastLine;
    StepOnLines(s, job, fields);
    LastLineIsLast(s.lines, job, None);
  }

  /** One job's step leaves its last line up to date exactly when the job settles. */
  lemma CurrentIffSettles(s: Sync, job: nat, fields: Fields)
    requires UniqueIds(s.lines)
    ensures Current(SyncJob(s, job, fields).lines, job, fields) <==> Settles(s.lines, job, fields)
    ensures Identified(SyncJob(s, job, fields).lines, job)
  {
    hide SyncJob, LastLine, UniqueIds;
    var after := SyncJob(s, job, fields).lines;
    StepOnLines(s, job, fields);
    LastLineIsLast(s.lines, job, None);
    LastLineIsLast(after, job, None);
    IdsIdentify(s.lines, job);
    if LastLine(s.lines, job, None).Some? {
      var last := LastLine(s.lines, job, None).value;
      LastLineIsLast(s.lines, job, Some(last.id));
      LastAfterStep(s.lines, after, last, fields, job);
    } else {
      var added := Line(s.nextId, Some(job), fields);
      assert added in after && Candidate(added, job, None);
    }
  }

  lemma IdsIdentify(lines: seq<Line>, job: nat)
    requires UniqueIds(lines)
    ensures Identified(lines, job)
  {}

  lemma LastAfterStep(lines: seq<Line>, after: seq<Line>, last: Line, fields: Fields, job: nat)
    requires Identified(lines, job) && IsLast(last, lines, job, None)
    requires forall line :: line in after <==> (line in lines && line != last) || line == last.(fields := fields)
    ensures Identified(after, job)
    ensures var other := LastLine(lines, job, Some(last.id));
            LastLine(after, job, None)
            == if other.Some? && Follows(other.value, last.(fields := fields)) then other
               else Some(last.(fields := fields))
  {
    hide LastLine;
    var placed := last.(fields := fields);
    LastLineIsLast(lines, job, Some(last.id));
    LastLineIsLast(after, job, None);
    var other := LastLine(lines, job, Some(last.id));
    assert placed in after && Candidate(placed, job, None);
    if other.Some? && Follows(other.value, placed) {
      assert IsLast(other.value, after, job, None);
      LastIsUnique(other.value, LastLine(after, job, None).value, after, job, None);
    } else {
      assert IsLast(placed, after, job, None);
      LastIsUnique(placed, LastLine(after, job, None).value, after, job, None);
    }
  }

  lemma {:induction false} JobsKeepIds(w: World, s: Sync, n: nat)
    requires n <= |w.jobs| && UniqueIds(s.lines) && forall line :: line in s.lines ==> line.id < s.nextId
    ensures UniqueIds(SyncJobs(w, s, n).lines)
    ensures forall line :: line in SyncJobs(w, s, n).lines ==> line.id < SyncJobs(w, s, n).nextId
  {
    hide SyncJob, FieldsFor, UniqueIds;
    if n > 0 {
      JobsKeepIds(w, s, n - 1);
      StepKeepsIds(SyncJobs(w, s, n - 1), w.jobs[n - 1].id, FieldsFor(w, n - 1));
    }
  }

  lemma SameLinesTrans(job: nat, a: seq<Line>, b: seq<Line>, c: seq<Line>)
    requires SameLinesOf(job, a, b) && SameLinesOf(job, b, c)
    ensures SameLinesOf(job, a, c)
  {}

  /** A job's lines are touched by its own step only. */
  lemma {:induction false} LinesUntilAndAfter(w: World, s: Sync, n: nat, i: nat)
    requires w.Ordered() && i < |w.jobs| && n <= |w.jobs|
    requires UniqueIds(s.lines) && forall line :: line in s.lines ==> line.id < s.nextId
    ensures n <= i ==> SameLinesOf(w.jobs[i].id, SyncJobs(w, s, n).lines, s.lines)
    ensures n > i ==> SameLinesOf(w.jobs[i].id, SyncJobs(w, s, n).lines, SyncJobs(w, s, i + 1).lines)
  {
    hide SyncJob, FieldsFor, UniqueIds, SameLinesOf;
    if n == 0 {
      SameLinesSelf(w.jobs[i].id, s.lines);
    } else if n == i + 1 {
      SameLinesSelf(w.jobs[i].id, SyncJobs(w, s, n).lines);
    } else {
      LinesUntilAndAfter(w, s, n - 1, i);
      var before := SyncJobs(w, s, n - 1);
      JobsKeepIds(w, s, n - 1);
      OtherLinesKept(before, w.jobs[n - 1].id, FieldsFor(w, n - 1), w.jobs[i].id);
      SameLinesTrans(w.jobs[i].id, SyncJobs(w, s, n).lines, before.lines,
                     if n <= i then s.lines else SyncJobs(w, s, i + 1).lines);
    }
  }

  lemma SameLinesSelf(job: nat, lines: seq<Line>)
    ensures SameLinesOf(job, lines, lines)
  {}

  lemma SettlesAlike(job: nat, fields: Fields, a: seq<Line>, b: seq<Line>)
    requires SameLinesOf(job, a, b) && Identified(a, job)
    ensures Settles(a, job, fields) <==> Settles(b, job, fields)
    ensures Current(a, job, fields) <==> Current(b, job, fields)
  {
    hide LastLine;
    SameLast(job, a, b, None);
    if LastLine(a, job, None).Some? {
      SameLast(job, a, b, Some(LastLine(a, job, None).value.id));
    }
  }

  lemma KeptLinesOf(w: World, lines: seq<Line>, i: nat)
    requires i < |w.jobs|
    ensures SameLinesOf(w.jobs[i].id, lines, Filter(lines, Kept(w)))
  {
    FilterMembers(lines, Kept(w));
  }

  /** After a whole sync a job's last line is up to date exactly when the job settled. */
  lemma CurrentAfterSync(w: World, lines: seq<Line>, nextId: nat, i: nat)
    requires w.Ordered() && i < |w.jobs|
    requires UniqueIds(lines) && forall line :: line in lines ==> line.id < nextId
    ensures Current(Synced(w, lines, nextId), w.jobs[i].id, FieldsFor(w, i))
            <==> Settles(lines, w.jobs[i].id, FieldsFor(w, i))
  {
    hide Current, Settles, SyncJob, FieldsFor, UniqueIds, SameLinesOf, Identified, Kept;
    var s, n, job, fields := Sync(lines, nextId, 0, 0), |w.jobs|, w.jobs[i].id, FieldsFor(w, i);
    var all, mid := SyncJobs(w, s, n).lines, SyncJobs(w, s, i);
    JobsKeepIds(w, s, i);
    IdsIdentify(mid.lines, job);
    LinesUntilAndAfter(w, s, i, i);
    SettlesAlike(job, fields, mid.lines, lines);
    CurrentIffSettles(mid, job, fields);
    JobsKeepIds(w, s, n);
    IdsIdentify(all, job);
    LinesUntilAndAfter(w, s, n, i);
    SettlesAlike(job, fields, all, SyncJobs(w, s, i + 1).lines);
    KeptLinesOf(w, all, i);
    SettlesAlike(job, fields, all, Filter(all, Kept(w)));
  }

  lemma StepIsIdleIff(s: Sync, job: nat, fields: Fields)
    ensures Current(s.lines, job, fields) ==> SyncJob(s, job, fields) == s
    ensures !Current(s.lines, job, fields) ==>
              && SyncJob(s, job, fields).added + SyncJob(s, job, fields).updated == s.added + s.updated + 1
              && SyncJob(s, job, fields).lines != s.lines
  {
    hide Position, SyncJob, LastLine;
    SyncJobUnfolds(s, job, fields);
    PositionIsLast(s.lines, job);
  }

  /** A pass over the jobs is idle exactly when every job's last line is up to date; it counts a
      change for each of the others. */
  lemma {:induction false} PassIsIdleIff(w: World, s: Sync, n: nat)
    requires n <= |w.jobs|
    ensures (forall i :: 0 <= i < n ==> Current(s.lines, w.jobs[i].id, FieldsFor(w, i))) ==> SyncJobs(w, s, n) == s
    ensures SyncJobs(w, s, n).added + SyncJobs(w, s, n).updated >= s.added + s.updated
    ensures SyncJobs(w, s, n).added + SyncJobs(w, s, n).updated == s.added + s.updated
            ==> forall i :: 0 <= i < n ==> Current(s.lines, w.jobs[i].id, FieldsFor(w, i))
  {
    hide SyncJob, FieldsFor, Current;
    if n > 0 {
      PassIsIdleIff(w, s, n - 1);
      StepIsIdleIff(SyncJobs(w, s, n - 1), w.jobs[n - 1].id, FieldsFor(w, n - 1));
    }
  }

  ghost predicate AllLive(w: World, lines: seq<Line>) {
    forall line :: line in lines ==> IsLive(w, line)
  }

  lemma {:induction false} PassKeepsLive(w: World, s: Sync, n: nat)
    requires n <= |w.jobs| && AllLive(w, s.lines)
    ensures AllLive(w, SyncJobs(w, s, n).lines)
  {
    hide FieldsFor, Position;
    if n > 0 {
      PassKeepsLive(w, s, n - 1);
      PositionFinds(SyncJobs(w, s, n - 1).lines, w.jobs[n - 1].id);
    }
  }

  lemma {:induction false} FilterKeepsIds(lines: seq<Line>, keep: Line -> bool)
    requires UniqueIds(lines)
    ensures UniqueIds(Filter(lines, keep))
  {
    if lines != [] {
      var rest, line := lines[..|lines| - 1], lines[|lines| - 1];
      FilterKeepsIds(rest, keep);
      FilterMembers(rest, keep);
      var kept := Filter(rest, keep);
      forall p | 0 <= p < |kept| ensures kept[p].id != line.id {
        assert kept[p] in kept;
        var q :| 0 <= q < |rest| && rest[q] == kept[p];
        assert lines[q] == rest[q];
      }
    }
  }

  lemma SyncKeepsKeys(w: World, s: Sync)
    requires UniqueIds(s.lines) && forall line :: line in s.lines ==> line.id < s.nextId
    ensures UniqueIds(Filter(SyncJobs(w, s, |w.jobs|).lines, Kept(w)))
    ensures forall line :: line in Filter(SyncJobs(w, s, |w.jobs|).lines, Kept(w))
                           ==> line.id < SyncJobs(w, s, |w.jobs|).nextId
  {
    hide UniqueIds, SyncJobs, IsLive;
    JobsKeepIds(w, s, |w.jobs|);
    FilterKeepsIds(SyncJobs(w, s, |w.jobs|).lines, Kept(w));
    FilterMembers(SyncJobs(w, s, |w.jobs|).lines, Kept(w));
  }

  lemma StepShows(s: Sync, job: nat, fields: Fields)
    requires UniqueIds(s.lines) && SameLinesOf(job, SyncJob(s, job, fields).lines, s.lines)
    ensures Current(s.lines, job, fields)
  {
    hide SyncJob, LastLine, UniqueIds;
    StepOnLines(s, job, fields);
    LastLineIsLast(s.lines, job, None);
    var added := Line(s.nextId, Some(job), fields);
    assert LastLine(s.lines, job, None).None? ==> added in SyncJob(s, job, fields).lines;
    if LastLine(s.lines, job, None).Some? {
      var last := LastLine(s.lines, job, None).value;
      assert last in SyncJob(s, job, fields).lines;
    }
  }

  /** A pass that leaves the lines as they are found every job's last line up to date. */
  lemma UnchangedIsCurrent(w: World, s: Sync, i: nat)
    requires w.Ordered() && i < |w.jobs|
    requires UniqueIds(s.lines) && forall line :: line in s.lines ==> line.id < s.nextId
    requires SyncJobs(w, s, |w.jobs|).lines == s.lines
    ensures Current(s.lines, w.jobs[i].id, FieldsFor(w, i))
  {
    hide SyncJob, FieldsFor, Current, UniqueIds, SameLinesOf, Identified;
    var mid, job := SyncJobs(w, s, i), w.jobs[i].id;
    JobsKeepIds(w, s, i);
    LinesUntilAndAfter(w, s, i, i);
    LinesUntilAndAfter(w, s, |w.jobs|, i);
    SameLinesSwap(job, mid.lines, s.lines);
    SameLinesSwap(job, s.lines, SyncJobs(w, s, i + 1).lines);
    SameLinesTrans(job, SyncJobs(w, s, i + 1).lines, s.lines, mid.lines);
    StepShows(mid, job, FieldsFor(w, i));
    IdsIdentify(mid.lines, job);
    SettlesAlike(job, FieldsFor(w, i), mid.lines, s.lines);
  }

  lemma SameLinesSwap(job: nat, a: seq<Line>, b: seq<Line>)
    requires SameLinesOf(job, a, b)
    ensures SameLinesOf(job, b, a)
  {}

  /** Idempotence, exactly. A second sync right after a first removes nothing. It adds and updates
      nothing, and leaves the same rows, exactly when every live job settles, whatever duplicates
      there are; otherwise it counts a change and leaves other rows. */
  lemma SecondSyncIdleIff(w: World, lines: seq<Line>, nextId: nat)
    requires w.Ordered()
    requires UniqueIds(lines) && forall line :: line in lines ==> line.id < nextId
    ensures var first := SyncJobs(w, Sync(lines, nextId, 0, 0), |w.jobs|);
            var after := Synced(w, lines, nextId);
            var second := SyncJobs(w, Sync(after, first.nextId, 0, 0), |w.jobs|);
            var settled := forall i :: 0 <= i < |w.jobs| ==> Settles(lines, w.jobs[i].id, FieldsFor(w, i));
            && Synced(w, after, first.nextId) == second.lines
            && (second.added == second.updated == 0 <==> settled)
            && (second.lines == after <==> settled)
  {
    hide Current, Settles, SyncJobs, FieldsFor, UniqueIds, IsLive, Filter;
    var first := SyncJobs(w, Sync(lines, nextId, 0, 0), |w.jobs|);
    var after := Synced(w, lines, nextId);
    var start := Sync(after, first.nextId, 0, 0);
    forall i | 0 <= i < |w.jobs|
      ensures Current(after, w.jobs[i].id, FieldsFor(w, i)) <==> Settles(lines, w.jobs[i].id, FieldsFor(w, i))
    {
      CurrentAfterSync(w, lines, nextId, i);
    }
    PassIsIdleIff(w, start, |w.jobs|);
    FilterMembers(first.lines, Kept(w));
    PassKeepsLive(w, start, |w.jobs|);
    FilterAll(SyncJobs(w, start, |w.jobs|).lines, Kept(w));
    SyncKeepsKeys(w, Sync(lines, nextId, 0, 0));
    if SyncJobs(w, start, |w.jobs|).lines == after {
      forall i | 0 <= i < |w.jobs| ensures Current(after, w.jobs[i].id, FieldsFor(w, i)) {
        UnchangedIsCurrent(w, start, i);
      }
    }
  }

  /** The one live job of these examples is job 7. */
  ghost predicate OneJob(w: World) {
    w.jobs == [Job(7, "Windows", 1)]
  }

  lemma TwoLines(w: World, a: Line, b: Line)
    requires OneJob(w) && a.job == b.job == Some(7)
    ensures Position([a, b], 7) == Some(if Follows(b, a) then 1 else 0)
    ensures Filter([a, b], Kept(w)) == [a, b]
  {
    hide Follows;
    assert [a, b][..1] == [a] && [a][..0] == [];
    assert w.jobs[0].id == 7;
    FilterAll([a, b], Kept(w));
  }

  lemma OnePass(w: World, s: Sync)
    requires OneJob(w)
    ensures SyncJobs(w, s, 1) == SyncJob(s, 7, FieldsFor(w, 0)) && FieldsFor(w, 0).sortOrder == 0
  {
    assert SyncJobs(w, s, 0) == s;
  }

  /** The condition is needed: two lines of the job at places 3 and 5. The first sync moves the last
      one to place 0, so the other is last for the second sync, which rewrites it. */
  lemma SecondSyncUpdatesAgain(w: World, a: Fields, b: Fields)
    requires OneJob(w) && a.sortOrder == 3 && b.sortOrder == 5
    ensures var lines := [Line(1, Some(7), a), Line(2, Some(7), b)];
            var first := SyncJobs(w, Sync(lines, 3, 0, 0), 1);
            var after := Synced(w, lines, 3);
            var second := SyncJobs(w, Sync(after, first.nextId, 0, 0), 1);
            && first.added == 0 && first.updated == 1
            && second.added == 0 && second.updated == 1
            && second.lines != after
  {
    hide FieldsFor, Kept, Filter, Position, SyncJob, SyncJobs;
    var fields := FieldsFor(w, 0);
    var one, two, moved := Line(1, Some(7), a), Line(2, Some(7), b), Line(2, Some(7), fields);
    var s := Sync([one, two], 3, 0, 0);
    OnePass(w, s);
    TwoLines(w, one, two);
    SyncJobUnfolds(s, 7, fields);
    assert SyncJobs(w, s, 1) == Sync([one, moved], 3, 0, 1);
    var s' := Sync([one, moved], 3, 0, 0);
    OnePass(w, s');
    TwoLines(w, one, moved);
    SyncJobUnfolds(s', 7, fields);
  }

  /** And duplicates alone do not break idempotence: two lines that both show the job's values stay,
      and a sync changes nothing. */
  lemma IdleWithDuplicates(w: World)
    requires OneJob(w)
    ensures var lines := [Line(1, Some(7), FieldsFor(w, 0)), Line(2, Some(7), FieldsFor(w, 0))];
            && Duplicated(lines, 7)
            && SyncJobs(w, Sync(lines, 3, 0, 0), 1) == Sync(lines, 3, 0, 0)
            && Synced(w, lines, 3) == lines
  {
    hide FieldsFor, Kept, Filter, Position, SyncJob, SyncJobs;
    var one, two := Line(1, Some(7), FieldsFor(w, 0)), Line(2, Some(7), FieldsFor(w, 0));
    var s := Sync([one, two], 3, 0, 0);
    OnePass(w, s);
    TwoLines(w, one, two);
    SyncJobUnfolds(s, 7, FieldsFor(w, 0));
    assert [one, two][0].job == [one, two][1].job == Some(7);
  }

  // ----- The table -----

  class RegisterTable {
    var lines: seq<Line>
    var nextId: nat

    /** No two lines mirror the same job: true of a new register and kept by every sync. */
    ghost predicate Valid()
      reads this
    {
      DistinctJobs(lines)
    }

    /** Ids are unique and come from a sequence that never goes back. */
    ghost predicate Keyed()
      reads this
    {
      UniqueIds(lines) && forall line :: line in lines ==> line.id < nextId
    }

    constructor ()
      ensures Valid() && Keyed() && lines == []
    {
      lines, nextId := [], 0;
    }

    /** `{line.extra_work_id: line}` over the lines that mirror a job. The query returns them in the
        table's order, so of two lines for one job the later in that order stays. */
    method ExistingLines() returns (existing: map<nat, nat>)
      ensures forall job: nat :: Position(lines, job) == Lookup(existing, job)
      ensures forall job: nat :: IsLastOf(lines, job, if job in existing then Some(existing[job]) else None)
    {
      hide IsLastOf;
      existing := map[];
      for p := 0 to |lines|
        invariant forall job: nat :: Position(lines[..p], job) == Lookup(existing, job)
        invariant forall job :: job in existing ==> existing[job] < p
      {
        assert lines[..p + 1][..p] == lines[..p];
        if lines[p].job.Some?
           && (lines[p].job.value !in existing || Follows(lines[p], lines[existing[lines[p].job.value]]))
        {
          existing := existing[lines[p].job.value := p];
        }
      }
      assert lines[..|lines|] == lines;
      forall job: nat ensures IsLastOf(lines, job, if job in existing then Some(existing[job]) else None) {
        PositionIsLastOf(lines, job);
        assert Position(lines, job) == Lookup(existing, job);
      }
    }

    /** `sync_extra_work_register`, once the register row is locked. */
    method SyncWith(w: World) returns (added: nat, updated: nat, removed: nat)
      requires w.Ordered()
      modifies this
      ensures lines == Synced(w, old(lines), old(nextId))
      ensures nextId == SyncJobs(w, Sync(old(lines), old(nextId), 0, 0), |w.jobs|).nextId
      ensures old(Keyed()) ==> Keyed()
      ensures old(Valid()) ==> Valid() && IsProjection(w, old(lines), lines)
      ensures added == SyncJobs(w, Sync(old(lines), old(nextId), 0, 0), |w.jobs|).added
      ensures updated == SyncJobs(w, Sync(old(lines), old(nextId), 0, 0), |w.jobs|).updated
      ensures |lines| == |old(lines)| + added - removed
    {
      hide FieldsWith, IsLive, DistinctJobs, Shows, SyncJob, Position, Unmoved, UniqueIds;
      ghost var start := Sync(lines, nextId, 0, 0);
      var byJob := TicketMap(w);
      var existing := ExistingLines();
      var seen: set<nat> := {};
      added, updated := 0, 0;
      NothingSeenYet(w, existing, lines);
      for index := 0 to |w.jobs|
        invariant Sync(lines, nextId, added, updated) == SyncJobs(w, start, index)
        invariant Unmoved(w, existing, lines, seen, index)
      {
        var job := w.jobs[index];
        var fields := FieldsWith(w, index, if job.id in byJob then Some(byJob[job.id]) else None);
        StillUnmoved(w, existing, Sync(lines, nextId, added, updated), seen, index, fields);
        SyncJobUnfolds(Sync(lines, nextId, added, updated), job.id, fields);
        PositionFinds(lines, job.id);
        if job.id !in existing {
          lines := lines + [Line(nextId, Some(job.id), fields)];
          nextId := nextId + 1;
          added := added + 1;
        } else {
          var p := existing[job.id];
          if lines[p].fields != fields {
            lines := lines[p := lines[p].(fields := fields)];
            updated := updated + 1;
          }
        }
        seen := seen + {job.id};
      }
      AddedIsGrowth(w, start, |w.jobs|);
      if old(Keyed()) {
        SyncKeepsKeys(w, start);
      }
      if DistinctJobs(start.lines) {
        SyncProjects(w, start.lines, start.nextId);
      }
      StaleIsNotLive(w, existing, lines, seen);
      var stale := set job | job in existing && job !in seen;
      var before := |lines|;
      FilterShortens(lines, NotIn(stale));
      lines := Filter(lines, NotIn(stale));
      removed := before - |lines|;
    }
  }

  function Lookup(m: map<nat, nat>, k: nat): Option<nat> {
    if k in m then Some(m[k]) else None
  }

  function NotIn(stale: set<nat>): Line -> bool {
    (line: Line) => line.job.None? || line.job.value !in stale
  }

  /** The positions read before the loop stay right for the jobs still to come, and every mirrored
      job was either there before or has been handled. */
  ghost predicate Unmoved(w: World, existing: map<nat, nat>, lines: seq<Line>, seen: set<nat>, index: nat) {
    && index <= |w.jobs|
    && (forall i :: index <= i < |w.jobs| ==> Position(lines, w.jobs[i].id) == Lookup(existing, w.jobs[i].id))
    && (forall line :: line in lines && line.job.Some? ==> line.job.value in existing || line.job.value in seen)
    && (forall job :: job in seen <==> exists i :: 0 <= i < index && w.jobs[i].id == job)
  }

  lemma NothingSeenYet(w: World, existing: map<nat, nat>, lines: seq<Line>)
    requires forall job: nat :: Position(lines, job) == Lookup(existing, job)
    ensures Unmoved(w, existing, lines, {}, 0)
  {
    hide Position;
    forall line | line in lines && line.job.Some? ensures line.job.value in existing {
      var p :| 0 <= p < |lines| && lines[p] == line;
      PositionFinds(lines, line.job.value);
      assert Position(lines, line.job.value) == Lookup(existing, line.job.value);
    }
  }

  lemma SyncJobUnfolds(s: Sync, job: nat, fields: Fields)
    ensures Position(s.lines, job).None?
            ==> SyncJob(s, job, fields)
                == Sync(s.lines + [Line(s.nextId, Some(job), fields)], s.nextId + 1, s.added + 1, s.updated)
    ensures Position(s.lines, job).Some?
            ==> var p := Position(s.lines, job).value;
                p < |s.lines|
                && SyncJob(s, job, fields)
                   == if s.lines[p].fields == fields then s
                      else s.(lines := s.lines[p := s.lines[p].(fields := fields)], updated := s.updated + 1)
  {
    PositionFinds(s.lines, job);
  }

  lemma {:induction false} SameJobsSamePositions(a: seq<Line>, b: seq<Line>, job: nat)
    requires |a| == |b|
    requires forall p :: 0 <= p < |a| ==> a[p].job == b[p].job && (a[p].job == Some(job) ==> a[p] == b[p])
    ensures Position(a, job) == Position(b, job)
  {
    if a != [] {
      var a', b' := a[..|a| - 1], b[..|b| - 1];
      SameJobsSamePositions(a', b', job);
      PositionFinds(a', job);
    }
  }

  lemma SyncJobMoves(s: Sync, job: nat, fields: Fields, other: nat)
    requires other != job
    ensures Position(SyncJob(s, job, fields).lines, other) == Position(s.lines, other)
    ensures forall line :: line in SyncJob(s, job, fields).lines ==> line.job == Some(job) || line in s.lines
  {
    SyncJobUnfolds(s, job, fields);
    var after := SyncJob(s, job, fields).lines;
    if Position(s.lines, job).None? {
      assert after[..|after| - 1] == s.lines;
    } else {
      PositionFinds(s.lines, job);
      SameJobsSamePositions(s.lines, after, other);
    }
  }

  lemma StillUnmoved(w: World, existing: map<nat, nat>, s: Sync, seen: set<nat>, index: nat, fields: Fields)
    requires w.Ordered() && Unmoved(w, existing, s.lines, seen, index) && index < |w.jobs|
    ensures Position(s.lines, w.jobs[index].id) == Lookup(existing, w.jobs[index].id)
    ensures Unmoved(w, existing, SyncJob(s, w.jobs[index].id, fields).lines, seen + {w.jobs[index].id}, index + 1)
  {
    hide SyncJob, Position;
    var job := w.jobs[index].id;
    SyncJobMoves(s, job, fields, job + 1);
    forall i | index + 1 <= i < |w.jobs|
      ensures Position(SyncJob(s, job, fields).lines, w.jobs[i].id) == Lookup(existing, w.jobs[i].id)
    {
      SyncJobMoves(s, job, fields, w.jobs[i].id);
    }
  }

  lemma StaleIsNotLive(w: World, existing: map<nat, nat>, lines: seq<Line>, seen: set<nat>)
    requires Unmoved(w, existing, lines, seen, |w.jobs|)
    ensures Filter(lines, NotIn(set job | job in existing && job !in seen)) == Filter(lines, Kept(w))
  {}

  lemma {:induction false} FilterShortens(lines: seq<Line>, keep: Line -> bool)
    ensures |Filter(lines, keep)| <= |lines|
  {
    if lines != [] {
      FilterShortens(lines[..|lines| - 1], keep);
    }
  }
}
