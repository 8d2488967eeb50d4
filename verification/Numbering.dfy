/**
 Gapless contract numbers. The counter row of a (company, year) is locked from the first
 allocation to the end of the transaction, so an aborted transaction gives its numbers back.
 */
module Numbering {
  import opened Sequences

  // ----- Rendering -----

  function Digit(d: nat): char
    requires d < 10
  {
    "0123456789"[d]
  }

  predicate IsDigit(c: char) {
    '0' <= c <= '9'
  }

  function DigitValue(c: char): nat
    requires IsDigit(c)
  {
    c as int - '0' as int
  }

  function Decimal(n: nat): string {
    if n < 10 then [Digit(n)] else Decimal(n / 10) + [Digit(n % 10)]
  }

  function ZeroPad(s: string, width: nat): string
    decreases width - |s|
  {
    if |s| >= width then s else ZeroPad("0" + s, width)
  }

  /** `CNT-YYYY-NNNN`, widening past 9999 instead of wrapping. */
  function FormatContractNumber(year: nat, seqNo: nat): string {
    "CNT-" + Decimal(year) + "-" + ZeroPad(Decimal(seqNo), 4)
  }

  /** `EW-<customer id>`, the number of an extra-work register. */
  function RegisterContractNo(customer: nat): string {
    "EW-" + ZeroPad(Decimal(customer), 6)
  }

  // ----- Reading a number back -----

  predicate AllDigits(s: string) {
    forall i :: 0 <= i < |s| ==> IsDigit(s[i])
  }

  function Value(s: string): nat
    requires AllDigits(s)
  {
    if s == [] then 0 else 10 * Value(s[..|s| - 1]) + DigitValue(s[|s| - 1])
  }

  function LeadingDigits(s: string): nat {
    if s != [] && IsDigit(s[0]) then 1 + LeadingDigits(s[1..]) else 0
  }

  /** Reads `CNT-<digits>-<digits>`; anything else is not a contract number. */
  function ParseContractNumber(s: string): Option<(nat, nat)> {
    if |s| < 4 || s[..4] != "CNT-" then None
    else
      var rest := s[4..];
      var n := LeadingDigits(rest);
      if n >= |rest| || rest[n] != '-' || !AllDigits(rest[..n]) || !AllDigits(rest[n + 1..]) then None
      else Some((Value(rest[..n]), Value(rest[n + 1..])))
  }

  lemma DigitAppended(head: string, d: nat)
    requires AllDigits(head) && d < 10
    ensures AllDigits(head + [Digit(d)]) && Value(head + [Digit(d)]) == 10 * Value(head) + d
  {}

  lemma {:induction false} DecimalReadsBack(n: nat)
    ensures AllDigits(Decimal(n)) && Decimal(n) != [] && Value(Decimal(n)) == n
  {
    if n < 10 {
      assert Decimal(n)[..0] == [];
    } else {
      var head := Decimal(n / 10);
      DecimalReadsBack(n / 10);
      DigitAppended(head, n % 10);
    }
  }

  lemma {:induction false} LeadingZero(s: string)
    requires AllDigits(s)
    ensures AllDigits("0" + s) && Value("0" + s) == Value(s)
  {
    var z := "0" + s;
    if s == [] {
      assert z[..0] == [];
    } else {
      LeadingZero(s[..|s| - 1]);
      assert z[..|z| - 1] == "0" + s[..|s| - 1];
    }
  }

  lemma {:induction false} PaddingReadsBack(s: string, width: nat)
    requires AllDigits(s)
    ensures AllDigits(ZeroPad(s, width)) && Value(ZeroPad(s, width)) == Value(s)
    decreases width - |s|
  {
    if |s| < width {
      LeadingZero(s);
      PaddingReadsBack("0" + s, width);
    }
  }

  lemma {:induction false} DigitsThenDash(digits: string, tail: string)
    requires AllDigits(digits)
    ensures LeadingDigits(digits + "-" + tail) == |digits|
  {
    if digits != [] {
      DigitsThenDash(digits[1..], tail);
      assert (digits + "-" + tail)[1..] == digits[1..] + "-" + tail;
    }
  }

  /** A rendered number parses back to its year and sequence, past 9999 too. */
  lemma RenderingRoundTrips(year: nat, seqNo: nat)
    ensures ParseContractNumber(FormatContractNumber(year, seqNo)) == Some((year, seqNo))
  {
    var y, n := Decimal(year), ZeroPad(Decimal(seqNo), 4);
    DecimalReadsBack(year);
    DecimalReadsBack(seqNo);
    PaddingReadsBack(Decimal(seqNo), 4);
    DigitsThenDash(y, n);
    var s := FormatContractNumber(year, seqNo);
    assert s[4..] == y + "-" + n;
    assert (y + "-" + n)[..|y|] == y && (y + "-" + n)[|y| + 1..] == n;
  }

  /** Rendering is injective over (year, sequence) and never produces a register's number. */
  lemma RenderingIsInjective(y1: nat, n1: nat, y2: nat, n2: nat, customer: nat)
    ensures FormatContractNumber(y1, n1) == FormatContractNumber(y2, n2) ==> y1 == y2 && n1 == n2
    ensures FormatContractNumber(y1, n1) != RegisterContractNo(customer)
  {
    RenderingRoundTrips(y1, n1);
    RenderingRoundTrips(y2, n2);
    assert FormatContractNumber(y1, n1)[0] == 'C' && RegisterContractNo(customer)[0] == 'E';
  }

  function Power10(k: nat): nat {
    if k == 0 then 1 else 10 * Power10(k - 1)
  }

  lemma {:induction false} DigitsBoundTheValue(s: string)
    requires AllDigits(s)
    ensures Value(s) < Power10(|s|)
    ensures s != [] && s[0] != '0' ==> Power10(|s| - 1) <= Value(s)
  {
    if s != [] {
      DigitsBoundTheValue(s[..|s| - 1]);
    }
  }

  lemma {:induction false} NoLeadingZero(n: nat)
    ensures Decimal(n) != [] && (n > 0 ==> Decimal(n)[0] != '0')
    ensures n < 10 ==> |Decimal(n)| == 1
  {
    if n >= 10 {
      NoLeadingZero(n / 10);
    }
  }

  lemma {:induction false} Padded(s: string, width: nat)
    ensures |ZeroPad(s, width)| == if |s| < width then width else |s|
    ensures |s| >= width ==> ZeroPad(s, width) == s
    decreases width - |s|
  {
    if |s| < width {
      Padded("0" + s, width);
    }
  }

  /** The sequence part has exactly four digits up to 9999, and above that only as many as the number
      needs: more than four, and no leading zero. */
  lemma SequencePartLength(year: nat, seqNo: nat)
    ensures var s := FormatContractNumber(year, seqNo);
            var at := 4 + |Decimal(year)| + 1;
            && at < |s| && s[at - 1] == '-' && AllDigits(s[at..]) && Value(s[at..]) == seqNo
            && (seqNo <= 9999 ==> |s[at..]| == 4)
            && (seqNo > 9999 ==> |s[at..]| > 4 && s[at] != '0')
  {
    hide Decimal, ZeroPad, Value;
    var s, at, part := FormatContractNumber(year, seqNo), 4 + |Decimal(year)| + 1, ZeroPad(Decimal(seqNo), 4);
    assert s[at..] == part;
    DecimalReadsBack(seqNo);
    PaddingReadsBack(Decimal(seqNo), 4);
    NoLeadingZero(seqNo);
    Padded(Decimal(seqNo), 4);
    DigitsBoundTheValue(Decimal(seqNo));
    assert Power10(4) == 10000 && Power10(3) == 1000;
    if |Decimal(seqNo)| > 4 {
      PowersGrow(4, |Decimal(seqNo)| - 1);
    } else {
      PowersGrow(|Decimal(seqNo)|, 4);
    }
  }

  lemma {:induction false} PowersGrow(j: nat, k: nat)
    requires j <= k
    ensures Power10(j) <= Power10(k)
    decreases k
  {
    if j < k {
      PowersGrow(j, k - 1);
    }
  }

  lemma ZerosInFront(s: string)
    ensures |s| == 3 ==> ZeroPad(s, 6) == "000" + s
    ensures |s| == 1 ==> ZeroPad(s, 4) == "000" + s
  {
    var one, two, three := "0" + s, "0" + ("0" + s), "0" + ("0" + ("0" + s));
    assert three == "000" + s;
    assert |s| == 3 ==> ZeroPad(three, 6) == three && ZeroPad(two, 6) == three && ZeroPad(one, 6) == three;
    assert |s| == 1 ==> ZeroPad(three, 4) == three && ZeroPad(two, 4) == three && ZeroPad(one, 4) == three;
  }

  lemma RenderedExamples()
    ensures FormatContractNumber(2026, 7) == "CNT-2026-0007"
    ensures RegisterContractNo(123) == "EW-000123"
  {
    assert Decimal(2026) == "2026" && Decimal(7) == "7" && Decimal(123) == "123";
    ZerosInFront("7");
    ZerosInFront("123");
  }

  // ----- The counter table -----

  datatype SeqKey = SeqKey(company: nat, year: nat)

  function Last(counters: map<SeqKey, nat>, key: SeqKey): nat {
    if key in counters then counters[key] else 0
  }

  class SequenceTable {
    var lastNumber: map<SeqKey, nat>

    constructor ()
      ensures lastNumber == map[]
    {
      lastNumber := map[];
    }

    /** `allocate_contract_number`: make the counter row if it is missing, then increment it. */
    method Allocate(company: nat, year: nat) returns (number: string, seqNo: nat)
      modifies this
      ensures seqNo == Last(old(lastNumber), SeqKey(company, year)) + 1
      ensures lastNumber == old(lastNumber)[SeqKey(company, year) := seqNo]
      ensures ParseContractNumber(number) == Some((year, seqNo))
    {
      var key := SeqKey(company, year);
      if key !in lastNumber {
        lastNumber := lastNumber[key := 0];
      }
      lastNumber := lastNumber[key := lastNumber[key] + 1];
      seqNo := lastNumber[key];
      number := FormatContractNumber(year, seqNo);
      RenderingRoundTrips(year, seqNo);
    }
  }

  // ----- Concurrent transactions -----

  datatype Numbered = Numbered(key: SeqKey, seqNo: nat)

  /** An open transaction: the counter rows it has locked, with their uncommitted values, and the
      contracts it has created. */
  datatype Transaction = Transaction(counters: map<SeqKey, nat>, issued: seq<Numbered>)

  datatype State = State(counters: map<SeqKey, nat>, contracts: seq<Numbered>, open: map<nat, Transaction>)

  datatype Action =
    | Begin(id: nat)
    | Create(id: nat, key: SeqKey)
    | Commit(id: nat)
    | Abort(id: nat)

  predicate LockedByAnother(s: State, id: nat, key: SeqKey) {
    exists other :: other in s.open && other != id && key in s.open[other].counters
  }

  predicate Enabled(s: State, a: Action) {
    match a
    case Begin(id) => id !in s.open
    case Create(id, key) => id in s.open && !LockedByAnother(s, id, key)
    case Commit(id) => id in s.open
    case Abort(id) => id in s.open
  }

  /** The value `select_for_update` reads: its own uncommitted one, or the committed one. */
  function Current(s: State, id: nat, key: SeqKey): nat
    requires id in s.open
  {
    if key in s.open[id].counters then s.open[id].counters[key] else Last(s.counters, key)
  }

  function Without(open: map<nat, Transaction>, id: nat): map<nat, Transaction> {
    map t | t in open && t != id :: open[t]
  }

  function Step(s: State, a: Action): State
    requires Enabled(s, a)
  {
    match a
    case Begin(id) => s.(open := s.open[id := Transaction(map[], [])])
    case Create(id, key) =>
      var n := Current(s, id, key) + 1;
      var t := s.open[id];
      s.(open := s.open[id := Transaction(t.counters[key := n], t.issued + [Numbered(key, n)])])
    case Commit(id) =>
      var t := s.open[id];
      State(s.counters + t.counters, s.contracts + t.issued, Without(s.open, id))
    case Abort(id) => s.(open := Without(s.open, id))
  }

  function Execute(actions: seq<Action>): Option<State> {
    if actions == [] then Some(State(map[], [], map[]))
    else
      match Execute(actions[..|actions| - 1])
      case None => None
      case Some(s) =>
        var a := actions[|actions| - 1];
        if Enabled(s, a) then Some(Step(s, a)) else None
  }

  /** The sequence numbers given out for one key, in order. */
  function NumbersOf(contracts: seq<Numbered>, key: SeqKey): seq<nat> {
    if contracts == [] then []
    else
      var earlier, c := NumbersOf(contracts[..|contracts| - 1], key), contracts[|contracts| - 1];
      if c.key == key then earlier + [c.seqNo] else earlier
  }

  /** `lo + 1, ..., hi` */
  function Consecutive(lo: nat, hi: nat): seq<nat>
    decreases hi
  {
    if hi <= lo then [] else Consecutive(lo, hi - 1) + [hi]
  }

  lemma {:induction false} NumbersOfConcat(a: seq<Numbered>, b: seq<Numbered>, key: SeqKey)
    ensures NumbersOf(a + b, key) == NumbersOf(a, key) + NumbersOf(b, key)
    decreases |b|
  {
    if b == [] {
      assert a + b == a;
    } else {
      NumbersOfConcat(a, b[..|b| - 1], key);
      assert (a + b)[..|a + b| - 1] == a + b[..|b| - 1];
    }
  }

  lemma {:induction false} ConsecutiveConcat(a: nat, b: nat, c: nat)
    requires a <= b <= c
    ensures Consecutive(a, b) + Consecutive(b, c) == Consecutive(a, c)
    decreases c
  {
    if b < c {
      ConsecutiveConcat(a, b, c - 1);
      assert Consecutive(a, b) + Consecutive(b, c) == Consecutive(a, b) + Consecutive(b, c - 1) + [c];
    }
  }

  ghost predicate TransactionOk(counters: map<SeqKey, nat>, t: Transaction) {
    forall key :: Last(counters, key) <= LockedValue(counters, t, key)
                  && NumbersOf(t.issued, key) == Consecutive(Last(counters, key), LockedValue(counters, t, key))
  }

  function LockedValue(counters: map<SeqKey, nat>, t: Transaction, key: SeqKey): nat {
    if key in t.counters then t.counters[key] else Last(counters, key)
  }

  ghost predicate Disjoint(t: Transaction, u: Transaction) {
    forall key :: !(key in t.counters && key in u.counters)
  }

  ghost predicate Inv(s: State) {
    && (forall key :: NumbersOf(s.contracts, key) == Consecutive(0, Last(s.counters, key)))
    && (forall id :: id in s.open ==> TransactionOk(s.counters, s.open[id]))
    && (forall i, j :: i in s.open && j in s.open && i != j ==> Disjoint(s.open[i], s.open[j]))
  }

  lemma CreateKeepsTransaction(s: State, id: nat, key: SeqKey)
    requires Enabled(s, Create(id, key)) && TransactionOk(s.counters, s.open[id])
    ensures TransactionOk(s.counters, Step(s, Create(id, key)).open[id])
  {
    hide LockedByAnother;
    var t, t' := s.open[id], Step(s, Create(id, key)).open[id];
    assert t'.issued[..|t'.issued| - 1] == t.issued;
    forall k ensures NumbersOf(t'.issued, k) == Consecutive(Last(s.counters, k), LockedValue(s.counters, t', k))
                     && Last(s.counters, k) <= LockedValue(s.counters, t', k)
    {
      assert Last(s.counters, k) <= LockedValue(s.counters, t, k);
    }
  }

  lemma CreateKeepsInv(s: State, id: nat, key: SeqKey)
    requires Inv(s) && Enabled(s, Create(id, key))
    ensures Inv(Step(s, Create(id, key)))
  {
    hide TransactionOk, NumbersOf, Consecutive;
    CreateKeepsTransaction(s, id, key);
  }

  lemma CommitKeepsInv(s: State, id: nat)
    requires Inv(s) && Enabled(s, Commit(id))
    ensures Inv(Step(s, Commit(id)))
  {
    var t, s' := s.open[id], Step(s, Commit(id));
    forall k ensures NumbersOf(s'.contracts, k) == Consecutive(0, Last(s'.counters, k)) {
      NumbersOfConcat(s.contracts, t.issued, k);
      ConsecutiveConcat(0, Last(s.counters, k), LockedValue(s.counters, t, k));
    }
    forall j | j in s'.open ensures TransactionOk(s'.counters, s'.open[j]) {
      UntouchedByOthers(s.counters, t, s.open[j]);
    }
  }

  lemma UntouchedByOthers(counters: map<SeqKey, nat>, t: Transaction, u: Transaction)
    requires TransactionOk(counters, t) && TransactionOk(counters, u) && Disjoint(t, u)
    ensures TransactionOk(counters + t.counters, u)
  {
    var counters' := counters + t.counters;
    forall key
      ensures Last(counters', key) <= LockedValue(counters', u, key)
      ensures NumbersOf(u.issued, key) == Consecutive(Last(counters', key), LockedValue(counters', u, key))
    {
      assert Last(counters, key) <= LockedValue(counters, u, key);
    }
  }

  /** Transactions begin, commit and abort freely; an allocation waits exactly while another open
      transaction has allocated from the same counter. */
  lemma WaitsForTheHolder(s: State, id: nat, key: SeqKey)
    ensures Enabled(s, Begin(id)) <==> id !in s.open
    ensures id in s.open ==> Enabled(s, Commit(id)) && Enabled(s, Abort(id))
    ensures id in s.open ==>
              (Enabled(s, Create(id, key))
               <==> forall other :: other in s.open && other != id ==> key !in s.open[other].counters)
  {}

  lemma StepKeepsInv(s: State, a: Action)
    requires Inv(s) && Enabled(s, a)
    ensures Inv(Step(s, a))
  {
    match a
    case Begin(_) =>
    case Create(id, key) => CreateKeepsInv(s, id, key);
    case Commit(id) => CommitKeepsInv(s, id);
    case Abort(_) =>
  }

  /** In every interleaving of commits and aborts the numbers committed for a (company, year) are
      1, 2, ..., last_number: no gap, no repeat. */
  lemma {:induction false} NumbersAreGapless(actions: seq<Action>)
    requires Execute(actions).Some?
    ensures Inv(Execute(actions).value)
  {
    if actions != [] {
      NumbersAreGapless(actions[..|actions| - 1]);
      StepKeepsInv(Execute(actions[..|actions| - 1]).value, actions[|actions| - 1]);
    }
  }

  /** The contracts a transaction has created for a key since it last began. */
  function CreatedSince(actions: seq<Action>, id: nat, key: SeqKey): nat {
    if actions == [] then 0
    else
      var earlier, a := CreatedSince(actions[..|actions| - 1], id, key), actions[|actions| - 1];
      match a
      case Begin(t) => if t == id then 0 else earlier
      case Create(t, k) => if t == id && k == key then earlier + 1 else earlier
      case _ => earlier
  }

  /** The contracts created for a key in transactions that went on to commit. */
  function CreatedAndCommitted(actions: seq<Action>, key: SeqKey): nat {
    if actions == [] then 0
    else
      var rest, a := actions[..|actions| - 1], actions[|actions| - 1];
      CreatedAndCommitted(rest, key) + if a.Commit? then CreatedSince(rest, a.id, key) else 0
  }

  /** Nothing is lost and nothing aborted is kept: the committed numbers of a key are as many as the
      contracts created for it in committed transactions. */
  lemma {:induction false} CommittedAreTheCreated(actions: seq<Action>, key: SeqKey)
    requires Execute(actions).Some?
    ensures |NumbersOf(Execute(actions).value.contracts, key)| == CreatedAndCommitted(actions, key)
    ensures forall id :: id in Execute(actions).value.open ==>
              |NumbersOf(Execute(actions).value.open[id].issued, key)| == CreatedSince(actions, id, key)
  {
    if actions != [] {
      var rest, a := actions[..|actions| - 1], actions[|actions| - 1];
      CommittedAreTheCreated(rest, key);
      var s := Execute(rest).value;
      match a
      case Create(id, k) =>
        var issued := s.open[id].issued;
        assert (issued + [Numbered(k, Current(s, id, k) + 1)])[..|issued|] == issued;
      case Commit(id) => NumbersOfConcat(s.contracts, s.open[id].issued, key);
      case _ =>
    }
  }

  lemma {:induction false} ConsecutiveCovers(lo: nat, hi: nat)
    ensures forall n :: n in Consecutive(lo, hi) <==> lo < n <= hi
    ensures |Consecutive(lo, hi)| == if lo <= hi then hi - lo else 0
    decreases hi
  {
    if lo < hi {
      ConsecutiveCovers(lo, hi - 1);
    }
  }

  /** Within a company every committed contract has its own rendered number. */
  lemma CommittedNumbersAreUnique(actions: seq<Action>, i: nat, j: nat)
    requires Execute(actions).Some? && i < j < |Execute(actions).value.contracts|
    requires Execute(actions).value.contracts[i].key.company == Execute(actions).value.contracts[j].key.company
    ensures var a, b := Execute(actions).value.contracts[i], Execute(actions).value.contracts[j];
            FormatContractNumber(a.key.year, a.seqNo) != FormatContractNumber(b.key.year, b.seqNo)
  {
    hide Execute, FormatContractNumber;
    var s := Execute(actions).value;
    var a, b := s.contracts[i], s.contracts[j];
    NumbersAreGapless(actions);
    RenderingIsInjective(a.key.year, a.seqNo, b.key.year, b.seqNo, 0);
    if a.key == b.key {
      EarlierIsSmaller(s.contracts, i, j, Last(s.counters, a.key));
    }
  }

  lemma EarlierIsSmaller(contracts: seq<Numbered>, i: nat, j: nat, last: nat)
    requires i < j < |contracts| && contracts[i].key == contracts[j].key
    requires NumbersOf(contracts, contracts[i].key) == Consecutive(0, last)
    ensures contracts[i].seqNo < contracts[j].seqNo
  {
    var key := contracts[i].key;
    var head, tail := contracts[..j], contracts[j + 1..];
    assert contracts == head + [contracts[j]] + tail;
    NumbersOfConcat(head + [contracts[j]], tail, key);
    NumbersOfConcat(head, [contracts[j]], key);
    assert NumbersOf([contracts[j]], key) == [contracts[j].seqNo] by { assert [contracts[j]][..0] == []; }
    InNumbers(head, i);
    var p := |NumbersOf(head, key)|;
    var q :| 0 <= q < p && NumbersOf(head, key)[q] == contracts[i].seqNo;
    ConsecutiveAt(0, last, p);
    ConsecutiveAt(0, last, q);
  }

  lemma {:induction false} InNumbers(contracts: seq<Numbered>, i: nat)
    requires i < |contracts|
    ensures contracts[i].seqNo in NumbersOf(contracts, contracts[i].key)
  {
    if i < |contracts| - 1 {
      InNumbers(contracts[..|contracts| - 1], i);
    }
  }

  lemma {:induction false} ConsecutiveAt(lo: nat, hi: nat, k: nat)
    requires k < |Consecutive(lo, hi)|
    ensures Consecutive(lo, hi)[k] == lo + k + 1
    decreases hi
  {
    ConsecutiveCovers(lo, hi);
    if lo < hi && k < hi - lo - 1 {
      ConsecutiveCovers(lo, hi - 1);
      ConsecutiveAt(lo, hi - 1, k);
    }
  }
}
