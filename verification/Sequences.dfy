/** Options, and filtering and summing sequences from the left, the way an appending loop does. */
module Sequences {

  datatype Option<+T> = None | Some(value: T)

  function Filter<T>(s: seq<T>, keep: T -> bool): seq<T> {
    if s == [] then []
    else
      var kept := Filter(s[..|s| - 1], keep);
      if keep(s[|s| - 1]) then kept + [s[|s| - 1]] else kept
  }

  function Sum(s: seq<int>): int {
    if s == [] then 0 else Sum(s[..|s| - 1]) + s[|s| - 1]
  }

  lemma FilterSnoc<T(!new)>(s: seq<T>, x: T, keep: T -> bool)
    ensures Filter(s + [x], keep) == if keep(x) then Filter(s, keep) + [x] else Filter(s, keep)
  {}

  lemma {:induction false} FilterConcat<T(!new)>(a: seq<T>, b: seq<T>, keep: T -> bool)
    ensures Filter(a + b, keep) == Filter(a, keep) + Filter(b, keep)
    decreases |b|
  {
    if b == [] {
      assert a + b == a;
    } else {
      var b', x := b[..|b| - 1], b[|b| - 1];
      FilterConcat(a, b', keep);
      assert a + b == (a + b') + [x];
      FilterSnoc(a + b', x, keep);
    }
  }

  lemma {:induction false} FilterMembers<T(!new)>(s: seq<T>, keep: T -> bool)
    ensures forall x :: x in Filter(s, keep) <==> x in s && keep(x)
  {
    if s != [] {
      var s', x := s[..|s| - 1], s[|s| - 1];
      FilterMembers(s', keep);
      assert s == s' + [x];
    }
  }

  lemma {:induction false} FilterAgree<T(!new)>(s: seq<T>, p: T -> bool, q: T -> bool)
    requires forall x :: x in s ==> p(x) == q(x)
    ensures Filter(s, p) == Filter(s, q)
  {
    if s != [] {
      FilterAgree(s[..|s| - 1], p, q);
    }
  }

  lemma {:induction false} FilterNone<T(!new)>(s: seq<T>, keep: T -> bool)
    requires forall x :: x in s ==> !keep(x)
    ensures Filter(s, keep) == []
  {
    if s != [] {
      FilterNone(s[..|s| - 1], keep);
    }
  }

  lemma {:induction false} FilterAll<T(!new)>(s: seq<T>, keep: T -> bool)
    requires forall x :: x in s ==> keep(x)
    ensures Filter(s, keep) == s
  {
    if s != [] {
      FilterAll(s[..|s| - 1], keep);
    }
  }

  /** Filtering twice, when the second test drops the head and keeps everything after it. */
  lemma FilterDropsHead<T(!new)>(x: T, rest: seq<T>, p: T -> bool, q: T -> bool)
    requires !q(x) && forall y :: y in rest ==> q(y)
    ensures Filter([x] + rest, p) == (if p(x) then [x] else []) + Filter(rest, p)
    ensures Filter(Filter([x] + rest, p), q) == Filter(rest, p)
  {
    var head := if p(x) then [x] else [];
    FilterConcat([x], rest, p);
    FilterSnoc([], x, p);
    assert [] + [x] == [x];
    assert Filter([x], p) == head;
    FilterMembers(rest, p);
    forall y | y in Filter(rest, p) ensures q(y) {
      assert y in rest;
    }
    FilterAll(Filter(rest, p), q);
    FilterNone(head, q);
    FilterConcat(head, Filter(rest, p), q);
  }

  lemma SumSnoc(s: seq<int>, x: int)
    ensures Sum(s + [x]) == Sum(s) + x
  {}
}
