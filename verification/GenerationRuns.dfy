/**
 Generator runs that overlap: every run drafts, claims and commits one period at a time, runs may
 crash anywhere, and committed invoices may be hard-deleted in between. A draft and its claim stay
 invisible until their savepoint commits; the unique index blocks a claim while another open
 savepoint holds the same key and refuses it once the key is committed.
 */
module GenerationRuns {
  import opened Calendar
  import opened Sequences
  import opened Billing
  import opened Generation

  datatype Phase = Idle | Drafted(invoice: nat) | Claimed(invoice: nat)

  datatype Worker = Worker(
    contract: Contract, author: Option<nat>, on: Day, due: seq<Row>,
    done: nat, phase: Phase, created: nat, skippedExisting: nat, skippedNoRevision: nat)
  {
    predicate Pending() { done < |due| }

    function Row(): Row
      requires Pending()
    {
      due[done]
    }

    function Key(): ClaimKey
      requires Pending()
    {
      KeyOf(contract, due[done])
    }

    predicate InFlight() { phase != Idle }

    function Committed(): Worker {
      this.(phase := Idle, done := done + 1, created := created + 1)
    }
  }

  /** `released` remembers which periods were ever freed by a hard delete. */
  datatype State = State(books: Books, workers: map<nat, Worker>, released: set<ClaimKey>)

  /** The contracts being billed, which stay fixed, and a date no run goes past. */
  datatype Setting = Setting(contracts: map<nat, Contract>, latest: Day)

  datatype Action =
    | Start(worker: nat, contract: nat, author: Option<nat>, on: Day)
    | Skip(worker: nat)
    | Draft(worker: nat)
    | Insert(worker: nat)
    | Refuse(worker: nat)
    | Commit(worker: nat)
    | Crash(worker: nat)
    | Delete(key: ClaimKey)

  /** The books once a worker's draft and claim are committed. */
  function Posted(b: Books, x: Worker): Books
    requires x.Pending() && x.InFlight() && Billable(x.contract, x.Row())
  {
    Post(b, x.contract, x.Row(), x.author, x.phase.invoice)
  }

  predicate Blocked(s: State, w: nat, key: ClaimKey) {
    exists v :: v in s.workers && v != w
                && s.workers[v].phase.Claimed? && s.workers[v].Pending() && s.workers[v].Key() == key
  }

  predicate AtRow(s: State, w: nat) {
    w in s.workers && s.workers[w].Pending()
  }

  predicate Enabled(g: Setting, s: State, a: Action) {
    match a
    case Start(w, id, author, on) =>
      w !in s.workers && id in g.contracts && g.contracts[id].id == id && !Before(g.latest, on)
    case Skip(w) => AtRow(s, w) && s.workers[w].phase.Idle? && !Billable(s.workers[w].contract, s.workers[w].Row())
    case Draft(w) => AtRow(s, w) && s.workers[w].phase.Idle? && Billable(s.workers[w].contract, s.workers[w].Row())
    case Insert(w) =>
      AtRow(s, w) && s.workers[w].phase.Drafted?
      && s.workers[w].Key() !in s.books.claims && !Blocked(s, w, s.workers[w].Key())
    case Refuse(w) => AtRow(s, w) && s.workers[w].phase.Drafted? && s.workers[w].Key() in s.books.claims
    case Commit(w) =>
      AtRow(s, w) && s.workers[w].phase.Claimed? && Billable(s.workers[w].contract, s.workers[w].Row())
    case Crash(w) => w in s.workers
    case Delete(k) => k in s.books.claims
  }

  function Step(g: Setting, s: State, a: Action): State
    requires Enabled(g, s, a)
  {
    match a
    case Start(w, id, author, on) =>
      var c := g.contracts[id];
      s.(workers := s.workers[w := Worker(c, author, on, RowsToBill(c, on), 0, Idle, 0, 0, 0)])
    case Skip(w) =>
      var x := s.workers[w];
      s.(workers := s.workers[w := x.(done := x.done + 1, skippedNoRevision := x.skippedNoRevision + 1)])
    case Draft(w) =>
      s.(books := s.books.(nextId := s.books.nextId + 1),
         workers := s.workers[w := s.workers[w].(phase := Drafted(s.books.nextId))])
    case Insert(w) =>
      s.(workers := s.workers[w := s.workers[w].(phase := Claimed(s.workers[w].phase.invoice))])
    case Refuse(w) =>
      var x := s.workers[w];
      s.(workers := s.workers[w := x.(phase := Idle, done := x.done + 1, skippedExisting := x.skippedExisting + 1)])
    case Commit(w) =>
      var x := s.workers[w];
      s.(books := Posted(s.books, x), workers := s.workers[w := x.Committed()])
    case Crash(w) => s.(workers := map v | v in s.workers && v != w :: s.workers[v])
    case Delete(k) => s.(books := DeleteInvoice(s.books, k), released := s.released + {k})
  }

  /** Performing actions in order; None when one of them is not enabled. */
  function Execute(g: Setting, s: State, actions: seq<Action>): Option<State> {
    if actions == [] then Some(s)
    else
      match Execute(g, s, actions[..|actions| - 1])
      case None => None
      case Some(mid) =>
        var a := actions[|actions| - 1];
        if Enabled(g, mid, a) then Some(Step(g, mid, a)) else None
  }

  function Initial(b: Books): State {
    State(b, map[], {})
  }

  // ----- What every reachable state satisfies -----

  /** An entry with its author blanked: which of two racing runs wins decides only the author. */
  function Impersonal(e: Entry): Entry {
    e.(invoice := e.invoice.(createdBy := None))
  }

  /** The entry is what the contract's own row for that period bills. */
  ghost predicate Priced(g: Setting, k: ClaimKey, e: Entry) {
    && k.contract in g.contracts
    && exists row :: row in RowsToBill(g.contracts[k.contract], g.latest)
                     && Explains(g.contracts[k.contract], row, None, k, Impersonal(e))
  }

  ghost predicate EntriesOk(g: Setting, base: map<ClaimKey, Entry>, released: set<ClaimKey>,
                            view: map<ClaimKey, Entry>)
  {
    && (forall k :: k in base && k !in released ==> k in view && view[k] == base[k])
    && (forall k :: k in view ==> (k in base && k !in released) || Priced(g, k, view[k]))
  }

  ghost predicate WorkerOk(g: Setting, b: Books, released: set<ClaimKey>, x: Worker) {
    && x.contract.id in g.contracts && g.contracts[x.contract.id] == x.contract
    && !Before(g.latest, x.on)
    && x.due == RowsToBill(x.contract, x.on)
    && x.done <= |x.due|
    && x.created + x.skippedExisting + x.skippedNoRevision == x.done
    && (x.InFlight() ==>
          x.Pending() && Billable(x.contract, x.Row()) && x.phase.invoice < b.nextId && x.phase.invoice !in b.invoices)
    && (x.phase.Claimed? ==> x.Key() !in b.claims)
    && (forall i :: 0 <= i < x.done && Billable(x.contract, x.due[i])
                    ==> KeyOf(x.contract, x.due[i]) in b.claims || KeyOf(x.contract, x.due[i]) in released)
  }

  /** Two open savepoints hold different drafts, and different keys once both have claimed. */
  ghost predicate Apart(x: Worker, y: Worker) {
    && (x.InFlight() && y.InFlight() ==> x.phase.invoice != y.phase.invoice)
    && (x.phase.Claimed? && y.phase.Claimed? && x.Pending() && y.Pending() ==> x.Key() != y.Key())
  }

  ghost predicate Inv(g: Setting, base: map<ClaimKey, Entry>, s: State) {
    && Consistent(s.books)
    && (forall w :: w in s.workers ==> WorkerOk(g, s.books, s.released, s.workers[w]))
    && (forall v, w :: v in s.workers && w in s.workers && v != w ==> Apart(s.workers[v], s.workers[w]))
    && EntriesOk(g, base, s.released, View(s.books))
  }

  lemma StartKeepsInv(g: Setting, base: map<ClaimKey, Entry>, s: State, a: Action)
    requires Inv(g, base, s) && a.Start? && Enabled(g, s, a)
    ensures Inv(g, base, Step(g, s, a))
  {
    hide Consistent, EntriesOk, View, RowsToBill, Before;
  }

  /** Replacing one worker, and possibly the books under the others. */
  lemma ReplaceWorker(g: Setting, base: map<ClaimKey, Entry>, s: State, w: nat, x: Worker, b: Books)
    requires Inv(g, base, s) && Consistent(b) && EntriesOk(g, base, s.released, View(b))
    requires WorkerOk(g, b, s.released, x)
    requires forall v :: v in s.workers && v != w ==> WorkerOk(g, b, s.released, s.workers[v])
    requires forall v :: v in s.workers && v != w ==> Apart(x, s.workers[v]) && Apart(s.workers[v], x)
    ensures Inv(g, base, s.(books := b, workers := s.workers[w := x]))
  {
    hide Consistent, EntriesOk, View, WorkerOk, Apart;
  }

  lemma IdleIsApart(x: Worker, y: Worker)
    requires x.phase.Idle?
    ensures Apart(x, y) && Apart(y, x)
  {}

  lemma CountOneRow(g: Setting, b: Books, released: set<ClaimKey>, x: Worker, refused: bool)
    requires WorkerOk(g, b, released, x) && x.Pending()
    requires if refused then x.Key() in b.claims else !Billable(x.contract, x.Row())
    ensures WorkerOk(g, b, released,
                     if refused then x.(phase := Idle, done := x.done + 1, skippedExisting := x.skippedExisting + 1)
                     else x.(phase := Idle, done := x.done + 1, skippedNoRevision := x.skippedNoRevision + 1))
  {
    hide RowsToBill, Before, Billable;
  }

  lemma SkipKeepsInv(g: Setting, base: map<ClaimKey, Entry>, s: State, a: Action)
    requires Inv(g, base, s) && (a.Skip? || a.Refuse?) && Enabled(g, s, a)
    ensures Inv(g, base, Step(g, s, a))
  {
    hide Consistent, EntriesOk, View, WorkerOk, Apart, Billable, KeyOf;
    var x := s.workers[a.worker];
    CountOneRow(g, s.books, s.released, x, a.Refuse?);
    var x' := Step(g, s, a).workers[a.worker];
    forall v | v in s.workers && v != a.worker ensures Apart(x', s.workers[v]) && Apart(s.workers[v], x') {
      IdleIsApart(x', s.workers[v]);
    }
    ReplaceWorker(g, base, s, a.worker, x', s.books);
  }

  lemma InsertKeepsInv(g: Setting, base: map<ClaimKey, Entry>, s: State, a: Action)
    requires Inv(g, base, s) && a.Insert? && Enabled(g, s, a)
    ensures Inv(g, base, Step(g, s, a))
  {
    hide Consistent, EntriesOk, View, RowsToBill, Before, Billable, KeyOf;
  }

  lemma CrashKeepsInv(g: Setting, base: map<ClaimKey, Entry>, s: State, a: Action)
    requires Inv(g, base, s) && a.Crash? && Enabled(g, s, a)
    ensures Inv(g, base, Step(g, s, a))
  {
    hide Consistent, EntriesOk, View, WorkerOk, Apart;
  }

  lemma DraftKeepsInv(g: Setting, base: map<ClaimKey, Entry>, s: State, a: Action)
    requires Inv(g, base, s) && a.Draft? && Enabled(g, s, a)
    ensures Inv(g, base, Step(g, s, a))
  {
    hide Consistent, EntriesOk, View, RowsToBill, Before, Billable, KeyOf;
    var drawn := s.books.(nextId := s.books.nextId + 1);
    ViewKeys(s.books);
    DrawKeepsBooks(s.books, drawn);
  }

  lemma DeleteKeepsInv(g: Setting, base: map<ClaimKey, Entry>, s: State, a: Action)
    requires Inv(g, base, s) && a.Delete? && Enabled(g, s, a)
    ensures Inv(g, base, Step(g, s, a))
  {
    hide Consistent, View, RowsToBill, Before, Billable, KeyOf, Priced, Apart;
    DeleteKeepsConsistent(s.books, a.key);
  }

  lemma AddingAnEntry(g: Setting, base: map<ClaimKey, Entry>, released: set<ClaimKey>,
                      view: map<ClaimKey, Entry>, k: ClaimKey, e: Entry)
    requires EntriesOk(g, base, released, view) && k !in view && Priced(g, k, e)
    ensures EntriesOk(g, base, released, view[k := e])
  {
    hide Priced;
  }

  lemma OtherWorkerAfterPost(g: Setting, b: Books, released: set<ClaimKey>, x: Worker, y: Worker)
    requires WorkerOk(g, b, released, x) && WorkerOk(g, b, released, y) && Apart(x, y)
    requires x.Pending() && x.phase.Claimed? && Billable(x.contract, x.Row())
    ensures WorkerOk(g, Posted(b, x), released, y)
  {
    hide RowsToBill, Before, Billable, InvoiceFor, ActiveRevision, KeyOf;
  }

  lemma WorkerAfterCommit(g: Setting, b: Books, released: set<ClaimKey>, x: Worker)
    requires WorkerOk(g, b, released, x)
    requires x.Pending() && x.phase.Claimed? && Billable(x.contract, x.Row())
    ensures WorkerOk(g, Posted(b, x), released, x.Committed())
  {
    hide RowsToBill, Before, Billable, InvoiceFor, ActiveRevision, KeyOf;
  }

  lemma CommitKeepsInv(g: Setting, base: map<ClaimKey, Entry>, s: State, a: Action)
    requires Inv(g, base, s) && a.Commit? && Enabled(g, s, a)
    ensures Inv(g, base, Step(g, s, a))
  {
    hide Consistent, View, Posted, WorkerOk, Billable, EntryFor, EntriesOk, Apart, KeyOf, Step, Enabled;
    CommitStep(g, s, a);
    var x := s.workers[a.worker];
    var x' := x.Committed();
    var b := Posted(s.books, x);
    CommitPosts(g, s.books, s.released, x);
    AddingAnEntry(g, base, s.released, View(s.books), x.Key(), EntryFor(x.contract, x.Row(), x.author));
    OthersAfterPost(g, s, a.worker, x');
    WorkerAfterCommit(g, s.books, s.released, x);
    ReplaceWorker(g, base, s, a.worker, x', b);
  }

  lemma CommitStep(g: Setting, s: State, a: Action)
    requires a.Commit? && Enabled(g, s, a)
    ensures a.worker in s.workers && s.workers[a.worker].Pending() && s.workers[a.worker].phase.Claimed?
    ensures Billable(s.workers[a.worker].contract, s.workers[a.worker].Row())
    ensures Step(g, s, a)
            == s.(books := Posted(s.books, s.workers[a.worker]),
                  workers := s.workers[a.worker := s.workers[a.worker].Committed()])
  {}

  lemma OthersAfterPost(g: Setting, s: State, w: nat, x': Worker)
    requires w in s.workers && x'.phase.Idle?
    requires forall v :: v in s.workers ==> WorkerOk(g, s.books, s.released, s.workers[v])
    requires forall u, v :: u in s.workers && v in s.workers && u != v ==> Apart(s.workers[u], s.workers[v])
    requires s.workers[w].Pending() && s.workers[w].phase.Claimed?
    requires Billable(s.workers[w].contract, s.workers[w].Row())
    ensures forall v :: v in s.workers && v != w ==>
              WorkerOk(g, Posted(s.books, s.workers[w]), s.released, s.workers[v])
    ensures forall v :: v in s.workers && v != w ==> Apart(x', s.workers[v]) && Apart(s.workers[v], x')
  {
    hide WorkerOk, Apart, Posted, Billable, KeyOf;
    forall v | v in s.workers && v != w
      ensures WorkerOk(g, Posted(s.books, s.workers[w]), s.released, s.workers[v])
      ensures Apart(x', s.workers[v]) && Apart(s.workers[v], x')
    {
      OtherWorkerAfterPost(g, s.books, s.released, s.workers[w], s.workers[v]);
      IdleIsApart(x', s.workers[v]);
    }
  }

  lemma CommitPosts(g: Setting, b: Books, released: set<ClaimKey>, x: Worker)
    requires Consistent(b) && WorkerOk(g, b, released, x)
    requires x.Pending() && x.phase.Claimed? && Billable(x.contract, x.Row())
    ensures Consistent(Posted(b, x))
    ensures View(Posted(b, x)) == View(b)[x.Key() := EntryFor(x.contract, x.Row(), x.author)]
    ensures x.Key() !in View(b) && Priced(g, x.Key(), EntryFor(x.contract, x.Row(), x.author))
  {
    hide Consistent, View, Post, Billable, EntryFor, RowsToBill, Priced;
    PostKeepsConsistent(b, x.contract, x.Row(), x.author, x.phase.invoice);
    ViewKeys(b);
    NewEntryIsPriced(g, b, released, x);
  }

  lemma NewEntryIsPriced(g: Setting, b: Books, released: set<ClaimKey>, x: Worker)
    requires WorkerOk(g, b, released, x) && x.Pending() && Billable(x.contract, x.Row())
    ensures Priced(g, x.Key(), EntryFor(x.contract, x.Row(), x.author))
  {
    hide RowsToBill, Before, Billable, ActiveRevision;
    ToBillGrows(x.contract, x.on, g.latest);
    assert x.Row() in x.due;
    assert Explains(x.contract, x.Row(), None, x.Key(), Impersonal(EntryFor(x.contract, x.Row(), x.author)));
  }

  lemma StepKeepsInv(g: Setting, base: map<ClaimKey, Entry>, s: State, a: Action)
    requires Inv(g, base, s) && Enabled(g, s, a)
    ensures Inv(g, base, Step(g, s, a))
  {
    hide Inv, Enabled, Step;
    match a
    case Start(_, _, _, _) => StartKeepsInv(g, base, s, a);
    case Skip(_) => SkipKeepsInv(g, base, s, a);
    case Draft(_) => DraftKeepsInv(g, base, s, a);
    case Insert(_) => InsertKeepsInv(g, base, s, a);
    case Refuse(_) => SkipKeepsInv(g, base, s, a);
    case Commit(_) => CommitKeepsInv(g, base, s, a);
    case Crash(_) => CrashKeepsInv(g, base, s, a);
    case Delete(_) => DeleteKeepsInv(g, base, s, a);
  }

  /** Safety over every interleaving: whatever the order of drafts, claims, commits, refusals,
      crashes and deletes, claims and drafts stay in bijection, no period is claimed twice, and
      every claimed period carries its original entry or exactly what its row bills. */
  lemma {:induction false} EveryInterleavingIsSafe(g: Setting, b: Books, actions: seq<Action>)
    requires Consistent(b) && Execute(g, Initial(b), actions).Some?
    ensures Inv(g, View(b), Execute(g, Initial(b), actions).value)
  {
    hide Step, Enabled;
    if actions == [] {
    } else {
      EveryInterleavingIsSafe(g, b, actions[..|actions| - 1]);
      StepKeepsInv(g, View(b), Execute(g, Initial(b), actions[..|actions| - 1]).value, actions[|actions| - 1]);
    }
  }

  // ----- What may happen at any time -----

  /** A run of any contract may start for any date up to the latest, any run may crash, and any claimed
      invoice may be deleted, in every state. */
  lemma AnythingMayHappen(g: Setting, s: State, w: nat, id: nat, author: Option<nat>, on: Day, k: ClaimKey)
    ensures w !in s.workers && id in g.contracts && g.contracts[id].id == id && Ordinal(on) <= Ordinal(g.latest)
            ==> Enabled(g, s, Start(w, id, author, on))
                && Step(g, s, Start(w, id, author, on)).books == s.books
                && w in Step(g, s, Start(w, id, author, on)).workers
                && Step(g, s, Start(w, id, author, on)).workers[w].contract == g.contracts[id]
                && Step(g, s, Start(w, id, author, on)).workers[w].author == author
                && Step(g, s, Start(w, id, author, on)).workers[w].on == on
    ensures w in s.workers ==> Enabled(g, s, Crash(w)) && Step(g, s, Crash(w)).books == s.books
    ensures k in s.books.claims ==> Enabled(g, s, Delete(k))
  {
    hide Ordinal, Before, RowsToBill;
    OrdinalOrder(g.latest, on);
  }

  /** The books gain one claim, on the contract's period of this row, and the draft under it, with the
      author, the contract's parties, the period's label and the agreed scope. */
  ghost predicate AddsDraft(b: Books, after: Books, c: Contract, row: Row, author: Option<nat>, id: nat) {
    var key := ClaimKey(c.id, row.periodStart);
    && ActiveRevision(c, row.periodStart).Some?
    && key !in b.claims && after.claims.Keys == b.claims.Keys + {key}
    && id !in b.invoices && after.invoices.Keys == b.invoices.Keys + {id}
    && after.claims[key]
       == Claim(id, ActiveRevision(c, row.periodStart).value.id, row.periodEnd, row.invoiceDate)
    && after.invoices[id].createdBy == author
    && after.invoices[id].company == c.company && after.invoices[id].customer == c.customer
    && after.invoices[id].periodYear == row.periodStart.year
    && after.invoices[id].periodMonth == row.periodStart.month
    && CarriesTheScope(after.invoices[id], ActiveRevision(c, row.periodStart).value)
  }

  lemma PostAddsDraft(b: Books, c: Contract, row: Row, author: Option<nat>, id: nat)
    requires Billable(c, row) && KeyOf(c, row) !in b.claims && id !in b.invoices
    ensures AddsDraft(b, Post(b, c, row, author, id), c, row, author, id)
  {
    hide ActiveRevision, CarriesTheScope, BillLines;
    EntryCarriesTheScope(c, row, author);
  }

  /** What a commit adds: the run's draft and claim for its current period, with the run's author. */
  lemma CommitIsExact(g: Setting, base: map<ClaimKey, Entry>, s: State, w: nat, x: Worker, id: nat)
    requires Inv(g, base, s) && w in s.workers && s.workers[w] == x
    requires x.Pending() && x.phase == Claimed(id)
    ensures Enabled(g, s, Commit(w))
    ensures AddsDraft(s.books, Step(g, s, Commit(w)).books, x.contract, x.due[x.done], x.author, id)
  {
    hide Consistent, EntriesOk, View, Apart, RowsToBill, Before, Billable, Post, AddsDraft, KeyOf;
    PostAddsDraft(s.books, x.contract, x.Row(), x.author, id);
  }

  // ----- What the counters count -----

  /** How often a run committed (or was refused) since it last started. */
  function Since(actions: seq<Action>, w: nat, commits: bool): nat {
    if actions == [] then 0
    else
      var earlier, a := Since(actions[..|actions| - 1], w, commits), actions[|actions| - 1];
      match a
      case Start(v, _, _, _) => if v == w then 0 else earlier
      case Commit(v) => if v == w && commits then earlier + 1 else earlier
      case Refuse(v) => if v == w && !commits then earlier + 1 else earlier
      case _ => earlier
  }

  /** The counters of a run's state. */
  predicate Counts(x: Worker, commits: nat, refusals: nat) {
    && x.created == commits && x.skippedExisting == refusals
    && x.done <= |x.due| && x.skippedNoRevision == |Filter(x.due[..x.done], NoScope(x.contract))|
  }

  lemma StepCounts(g: Setting, base: map<ClaimKey, Entry>, s: State, a: Action, w: nat, commits: nat, refusals: nat)
    requires Inv(g, base, s) && Enabled(g, s, a) && w in Step(g, s, a).workers
    requires !(a.Start? && a.worker == w) ==> w in s.workers && Counts(s.workers[w], commits, refusals)
    ensures if a.Start? && a.worker == w then Counts(Step(g, s, a).workers[w], 0, 0)
            else Counts(Step(g, s, a).workers[w],
                        if a == Commit(w) then commits + 1 else commits,
                        if a == Refuse(w) then refusals + 1 else refusals)
  {
    hide Inv, Posted, DeleteInvoice, RowsToBill, NoScope, Before, KeyOf, Blocked, Billable, Filter;
    if w in s.workers {
      ScopeOfTheRow(g, base, s, w);
    } else {
      FilterNone([], NoScope(Step(g, s, a).workers[w].contract));
    }
  }

  /** A run reports one created invoice per commit and one existing claim per refusal, and the rows it
      passed without an agreed scope. */
  lemma {:induction false} CountersAreExact(g: Setting, b: Books, actions: seq<Action>, w: nat)
    requires Consistent(b) && Execute(g, Initial(b), actions).Some?
    requires w in Execute(g, Initial(b), actions).value.workers
    ensures Counts(Execute(g, Initial(b), actions).value.workers[w], Since(actions, w, true), Since(actions, w, false))
  {
    hide Inv, Step, Enabled, Counts;
    if actions != [] {
      var rest, a := actions[..|actions| - 1], actions[|actions| - 1];
      var s := Execute(g, Initial(b), rest).value;
      EveryInterleavingIsSafe(g, b, rest);
      WhoIsThere(g, s, a, w);
      if w in s.workers {
        CountersAreExact(g, b, rest, w);
      }
      StepCounts(g, View(b), s, a, w, Since(rest, w, true), Since(rest, w, false));
    }
  }

  lemma WhoIsThere(g: Setting, s: State, a: Action, w: nat)
    requires Enabled(g, s, a)
    ensures w in Step(g, s, a).workers && !(a.Start? && a.worker == w) ==> w in s.workers
    ensures a.Start? ==> a.worker !in s.workers
  {
    hide RowsToBill, Posted, DeleteInvoice;
  }

  lemma ScopeOfTheRow(g: Setting, base: map<ClaimKey, Entry>, s: State, w: nat)
    requires Inv(g, base, s) && w in s.workers
    ensures var x := s.workers[w];
            && x.done <= |x.due|
            && (x.InFlight() ==> x.Pending())
            && (x.Pending() ==>
                  && (Billable(x.contract, x.Row()) <==> !NoScope(x.contract)(x.Row()))
                  && (x.InFlight() ==> !NoScope(x.contract)(x.Row()))
                  && x.due[..x.done + 1] == x.due[..x.done] + [x.Row()]
                  && Filter(x.due[..x.done + 1], NoScope(x.contract))
                     == Filter(x.due[..x.done], NoScope(x.contract))
                        + if NoScope(x.contract)(x.Row()) then [x.Row()] else [])
  {
    hide Consistent, EntriesOk, View, Apart, RowsToBill, ActiveRevision, Before, KeyOf;
    var x := s.workers[w];
    if x.Pending() {
      assert x.due[..x.done + 1] == x.due[..x.done] + [x.Row()];
      FilterSnoc(x.due[..x.done], x.Row(), NoScope(x.contract));
    }
  }

  function CommitsLessDeletes(actions: seq<Action>): int {
    if actions == [] then 0
    else
      var earlier, a := CommitsLessDeletes(actions[..|actions| - 1]), actions[|actions| - 1];
      if a.Commit? then earlier + 1 else if a.Delete? then earlier - 1 else earlier
  }

  /** Every commit adds one claim and every delete takes one away: none is lost, none is written twice. */
  lemma {:induction false} ClaimsAreCommitsLessDeletes(g: Setting, b: Books, actions: seq<Action>)
    requires Consistent(b) && Execute(g, Initial(b), actions).Some?
    ensures |Execute(g, Initial(b), actions).value.books.claims| == |b.claims| + CommitsLessDeletes(actions)
  {
    hide Inv, RowsToBill, Before, InvoiceFor, ClaimFor, KeyOf, Billable, Blocked;
    if actions != [] {
      var rest, a := actions[..|actions| - 1], actions[|actions| - 1];
      ClaimsAreCommitsLessDeletes(g, b, rest);
      EveryInterleavingIsSafe(g, b, rest);
      var s, t := Execute(g, Initial(b), rest).value, Execute(g, Initial(b), actions).value;
      if a.Commit? {
        ClaimedKeyIsFree(g, View(b), s, a.worker);
      } else if a.Delete? {
        OneKeyLess(s.books.claims, a.key);
      }
    }
  }

  lemma ClaimedKeyIsFree(g: Setting, base: map<ClaimKey, Entry>, s: State, w: nat)
    requires Inv(g, base, s) && AtRow(s, w) && s.workers[w].phase.Claimed?
    ensures s.workers[w].Key() !in s.books.claims
  {
    hide Consistent, EntriesOk, View, Apart, RowsToBill, Billable, Before, KeyOf;
  }

  lemma OneKeyLess(claims: map<ClaimKey, Claim>, k: ClaimKey)
    requires k in claims
    ensures |map j | j in claims && j != k :: claims[j]| == |claims| - 1
  {
    var rest := map j | j in claims && j != k :: claims[j];
    assert claims == rest[k := claims[k]];
  }

  // ----- Progress -----

  /** The actions by which a run gets through its rows. */
  predicate IsMove(a: Action) {
    !a.Start? && !a.Crash? && !a.Delete?
  }

  ghost predicate AllFinished(s: State) {
    forall w :: w in s.workers ==> !s.workers[w].Pending()
  }

  ghost predicate CanMove(g: Setting, s: State) {
    exists a :: IsMove(a) && Enabled(g, s, a)
  }

  /** A run that is not finished can move itself, or waits for a claim whose holder can commit. */
  lemma SomeoneCanMove(g: Setting, base: map<ClaimKey, Entry>, s: State, w: nat) returns (a: Action)
    requires Inv(g, base, s) && AtRow(s, w)
    ensures IsMove(a) && Enabled(g, s, a)
  {
    hide Consistent, EntriesOk, View, RowsToBill, Before, Billable, KeyOf, Apart;
    var x := s.workers[w];
    match x.phase
    case Idle => a := if Billable(x.contract, x.Row()) then Action.Draft(w) else Skip(w);
    case Claimed(_) => a := Commit(w);
    case Drafted(_) =>
      if x.Key() in s.books.claims {
        a := Refuse(w);
      } else if Blocked(s, w, x.Key()) {
        var v :| v in s.workers && v != w
                 && s.workers[v].phase.Claimed? && s.workers[v].Pending() && s.workers[v].Key() == x.Key();
        a := Commit(v);
      } else {
        a := Insert(w);
      }
  }

  /** No deadlock: whenever some run is not finished, some run can move. */
  lemma NoDeadlock(g: Setting, base: map<ClaimKey, Entry>, s: State)
    requires Inv(g, base, s)
    ensures CanMove(g, s) <==> !AllFinished(s)
  {
    hide Inv, Billable, KeyOf;
    if !AllFinished(s) {
      var w :| w in s.workers && s.workers[w].Pending();
      var a := SomeoneCanMove(g, base, s, w);
    }
  }

  /** The moves a run has left at most: three for each row, less those made in the current one. */
  function Left(x: Worker): nat
    requires x.done <= |x.due|
  {
    var rows := 3 * (|x.due| - x.done);
    if !x.Pending() then 0
    else match x.phase
         case Idle => rows
         case Drafted(_) => rows - 1
         case Claimed(_) => rows - 2
  }

  type Workers = workers: map<nat, Worker> | forall w :: w in workers ==> workers[w].done <= |workers[w].due|
    witness map[]

  ghost function Pick(workers: Workers): (w: nat)
    requires workers != map[]
    ensures w in workers
  {
    assert exists w :: w in workers by { NotEmpty(workers); }
    var w :| w in workers;
    w
  }

  lemma NotEmpty(workers: map<nat, Worker>)
    requires workers != map[]
    ensures exists w :: w in workers
  {
    assert |workers| != 0;
  }

  /** The moves all runs together have left at most. */
  ghost function Work(workers: Workers): nat
    decreases |workers|
  {
    if workers == map[] then 0
    else
      var w := Pick(workers);
      SmallerWithout(workers, w);
      Left(workers[w]) + Work(workers - {w})
  }

  lemma SmallerWithout(workers: map<nat, Worker>, w: nat)
    requires w in workers
    ensures |workers - {w}| < |workers|
  {
    assert workers == (workers - {w})[w := workers[w]];
  }

  lemma {:induction false} WorkSplits(workers: Workers, w: nat)
    requires w in workers
    ensures Work(workers) == Left(workers[w]) + Work(workers - {w})
    decreases |workers|
  {
    hide Left;
    var v := Pick(workers);
    if v != w {
      SmallerWithout(workers, v);
      SmallerWithout(workers, w);
      WorkSplits(workers - {v}, w);
      WorkSplits(workers - {w}, v);
      assert workers - {v} - {w} == workers - {w} - {v};
    }
  }

  ghost function WorkIn(g: Setting, base: map<ClaimKey, Entry>, s: State): nat
    requires Inv(g, base, s)
  {
    Work(s.workers)
  }

  /** A move changes one run, and leaves it fewer moves. */
  lemma MoveShrinks(g: Setting, base: map<ClaimKey, Entry>, s: State, a: Action)
    requires Inv(g, base, s) && IsMove(a) && Enabled(g, s, a)
    ensures a.worker in s.workers && s.workers[a.worker].done <= |s.workers[a.worker].due|
    ensures a.worker in Step(g, s, a).workers
    ensures Step(g, s, a).workers == s.workers[a.worker := Step(g, s, a).workers[a.worker]]
    ensures Step(g, s, a).workers[a.worker].done <= |Step(g, s, a).workers[a.worker].due|
    ensures Left(Step(g, s, a).workers[a.worker]) < Left(s.workers[a.worker])
  {
    hide Consistent, EntriesOk, View, RowsToBill, Before, Billable, KeyOf, Apart, Posted, Blocked;
  }

  lemma MoveDoesWork(g: Setting, base: map<ClaimKey, Entry>, s: State, a: Action)
    requires Inv(g, base, s) && IsMove(a) && Enabled(g, s, a)
    ensures Inv(g, base, Step(g, s, a))
    ensures WorkIn(g, base, Step(g, s, a)) < WorkIn(g, base, s)
  {
    hide Inv, Enabled, Step, Left, Work;
    StepKeepsInv(g, base, s, a);
    MoveShrinks(g, base, s, a);
    WithinTheirRows(g, base, s);
    WithinTheirRows(g, base, Step(g, s, a));
    OneShrinks(s.workers, Step(g, s, a).workers, a.worker);
  }

  lemma WithinTheirRows(g: Setting, base: map<ClaimKey, Entry>, s: State)
    requires Inv(g, base, s)
    ensures forall w :: w in s.workers ==> s.workers[w].done <= |s.workers[w].due|
  {
    hide Consistent, EntriesOk, View, Apart, RowsToBill, Before, Billable, KeyOf;
  }

  lemma OneShrinks(workers: Workers, after: Workers, w: nat)
    requires w in workers && w in after && after == workers[w := after[w]]
    requires Left(after[w]) < Left(workers[w])
    ensures Work(after) < Work(workers)
  {
    hide Left, Work;
    WorkSplits(workers, w);
    WorkSplits(after, w);
    assert after - {w} == workers - {w};
  }

  /** However runs go on from a state, they make a bounded number of moves. */
  lemma {:induction false} MovesAreBounded(g: Setting, base: map<ClaimKey, Entry>, s: State, moves: seq<Action>)
    requires Inv(g, base, s) && Execute(g, s, moves).Some? && forall a :: a in moves ==> IsMove(a)
    ensures Inv(g, base, Execute(g, s, moves).value)
    ensures |moves| + WorkIn(g, base, Execute(g, s, moves).value) <= WorkIn(g, base, s)
  {
    hide Inv, Step, Enabled, IsMove, WorkIn;
    if moves != [] {
      assert moves[|moves| - 1] in moves;
      MovesAreBounded(g, base, s, moves[..|moves| - 1]);
      MoveDoesWork(g, base, Execute(g, s, moves[..|moves| - 1]).value, moves[|moves| - 1]);
    }
  }

  /** Progress over every interleaving. From any reachable state, once runs neither start nor crash and
      nothing is deleted, at most `WorkIn` moves remain, whatever their order; and they stop only when
      every run has got through its rows. */
  lemma EveryInterleavingFinishes(g: Setting, b: Books, actions: seq<Action>, moves: seq<Action>)
    requires Consistent(b) && Execute(g, Initial(b), actions).Some?
    requires forall a :: a in moves ==> IsMove(a)
    requires Execute(g, Execute(g, Initial(b), actions).value, moves).Some?
    ensures Inv(g, View(b), Execute(g, Initial(b), actions).value)
    ensures |moves| <= WorkIn(g, View(b), Execute(g, Initial(b), actions).value)
    ensures CanMove(g, Execute(g, Execute(g, Initial(b), actions).value, moves).value)
            <==> !AllFinished(Execute(g, Execute(g, Initial(b), actions).value, moves).value)
  {
    hide Inv, Execute, Consistent, View, IsMove, WorkIn, CanMove, AllFinished;
    var s := Execute(g, Initial(b), actions).value;
    EveryInterleavingIsSafe(g, b, actions);
    MovesAreBounded(g, View(b), s, moves);
    NoDeadlock(g, View(b), Execute(g, s, moves).value);
  }

  // ----- Complete runs -----

  lemma {:induction false} ReleasedWereDeleted(g: Setting, s: State, actions: seq<Action>)
    requires Execute(g, s, actions).Some?
    ensures forall k :: k in Execute(g, s, actions).value.released <==> k in s.released || Delete(k) in actions
  {
    hide Enabled, RowsToBill, Post, DeleteInvoice;
    if actions != [] {
      var rest, a := actions[..|actions| - 1], actions[|actions| - 1];
      ReleasedWereDeleted(g, s, rest);
      assert actions == rest + [a];
    }
  }

  /** A run that got through its rows has every billable one claimed, unless it was deleted since;
      and it has counted every due row once. */
  lemma FinishedRunHasBilled(g: Setting, base: map<ClaimKey, Entry>, s: State, w: nat)
    requires Inv(g, base, s) && w in s.workers && s.workers[w].done == |s.workers[w].due|
    ensures forall k :: k in BillsOf(s.workers[w].contract, s.workers[w].due, None)
                        ==> k in s.books.claims || k in s.released
    ensures s.workers[w].created + s.workers[w].skippedExisting + s.workers[w].skippedNoRevision
            == |RowsToBill(s.workers[w].contract, s.workers[w].on)|
  {
    hide RowsToBill, Consistent, EntriesOk, Billable, BillsOf, Apart;
    var x := s.workers[w];
    BillsOfMembers(x.contract, x.due, None);
    forall k | k in BillsOf(x.contract, x.due, None) ensures k in s.books.claims || k in s.released {
      var row :| row in x.due && Explains(x.contract, row, None, k, BillsOf(x.contract, x.due, None)[k]);
      var i :| 0 <= i < |x.due| && x.due[i] == row;
      assert i < x.done;
    }
  }

  lemma PricedIsBilled(g: Setting, k: ClaimKey, e: Entry)
    requires Priced(g, k, e)
    ensures k in BillsOf(g.contracts[k.contract], RowsToBill(g.contracts[k.contract], g.latest), None)
    ensures BillsOf(g.contracts[k.contract], RowsToBill(g.contracts[k.contract], g.latest), None)[k] == Impersonal(e)
  {
    hide RowsToBill, Billable, EntryFor, BillsOf;
    var c := g.contracts[k.contract];
    var row :| row in RowsToBill(c, g.latest) && Explains(c, row, None, k, Impersonal(e));
    RowsToBillAreIdentified(c, g.latest);
    BillOfRow(c, RowsToBill(c, g.latest), None, row);
  }

  /** Interleaving does not matter. Once one run for the latest date has finished, every period of its
      contract that was never deleted is in the books exactly as that one run alone leaves it,
      whatever other runs did, crashed or left open meanwhile (authors and invoice ids aside). A
      period that was deleted is absent, or as some run billed it since. */
  lemma InterleavedEqualsSequential(g: Setting, b: Books, actions: seq<Action>, w: nat, k: ClaimKey)
    requires Consistent(b) && Execute(g, Initial(b), actions).Some?
    requires w in Execute(g, Initial(b), actions).value.workers
    requires var x := Execute(g, Initial(b), actions).value.workers[w];
             x.done == |x.due| && x.on == g.latest && x.contract.id == k.contract
    ensures Consistent(Execute(g, Initial(b), actions).value.books)
    ensures var s := Execute(g, Initial(b), actions).value;
            var x, together := s.workers[w], View(s.books);
            var alone := RunContract(b, x.contract, None, g.latest).books;
            && Consistent(alone)
            && (Delete(k) !in actions ==>
                  && (k in together <==> k in View(alone))
                  && (k in together ==> Impersonal(together[k]) == Impersonal(View(alone)[k])))
            && (Delete(k) in actions && k in together ==>
                  && k in BillsOf(x.contract, RowsToBill(x.contract, g.latest), None)
                  && Impersonal(together[k]) == BillsOf(x.contract, RowsToBill(x.contract, g.latest), None)[k])
  {
    hide Execute, Consistent, View, RowsToBill, BillsOf, Priced, Apart, RunContract, Reported, Billable;
    var s := Execute(g, Initial(b), actions).value;
    EveryInterleavingIsSafe(g, b, actions);
    ReleasedWereDeleted(g, Initial(b), actions);
    FinishedRunHasBilled(g, View(b), s, w);
    ViewKeys(s.books);
    RunContractBills(b, s.workers[w].contract, None, g.latest);
    if k in View(s.books) && (k !in View(b) || k in s.released) {
      PricedIsBilled(g, k, View(s.books)[k]);
    }
  }
}
