/**
 The `ORDER BY` of the queries, as an insertion sort over an order given by the
 caller. On rows the order tells apart, a sorted permutation is unique, so the
 sort below is not a choice: it is the only answer `ORDER BY` can give.
 */
module Sorting {

  function Insert<T>(x: T, s: seq<T>, before: (T, T) -> bool): seq<T> {
    if s == [] || before(x, s[0]) then [x] + s else [s[0]] + Insert(x, s[1..], before)
  }

  function Sort<T>(s: seq<T>, before: (T, T) -> bool): seq<T> {
    if s == [] then [] else Insert(s[|s| - 1], Sort(s[..|s| - 1], before), before)
  }

  /** `before` is a strict order that tells the elements of `s` apart. */
  ghost predicate Orders<T>(before: (T, T) -> bool, s: seq<T>) {
    && (forall a, b :: a in s && b in s ==> a == b || before(a, b) || before(b, a))
    && (forall a, b :: a in s && b in s && before(a, b) ==> !before(b, a))
    && (forall a, b, c :: a in s && b in s && c in s && before(a, b) && before(b, c) ==> before(a, c))
  }

  /** Nothing in `s` comes before `x`. */
  ghost predicate Leads<T>(x: T, s: seq<T>, before: (T, T) -> bool) {
    forall e :: e in s ==> !before(e, x)
  }

  ghost predicate Sorted<T>(s: seq<T>, before: (T, T) -> bool) {
    s == [] || (Leads(s[0], s[1..], before) && Sorted(s[1..], before))
  }

  /** `s` and `t` hold the same elements, each as often. */
  ghost predicate Permutation<T>(s: seq<T>, t: seq<T>) {
    multiset(s) == multiset(t)
  }

  lemma PermutationMembers<T>(s: seq<T>, t: seq<T>)
    requires Permutation(s, t)
    ensures |s| == |t|
    ensures forall e :: e in s <==> e in t
  {
    assert |s| == |multiset(s)| && |t| == |multiset(t)|;
    forall e ensures e in s <==> e in t {
      assert e in s <==> e in multiset(s);
      assert e in t <==> e in multiset(t);
    }
  }

  lemma OrdersFewer<T>(before: (T, T) -> bool, s: seq<T>, t: seq<T>)
    requires Orders(before, s)
    requires forall e :: e in t ==> e in s
    ensures Orders(before, t)
  {
  }

  lemma {:induction false} InsertKeeps<T>(x: T, s: seq<T>, before: (T, T) -> bool)
    ensures Permutation(Insert(x, s, before), [x] + s)
    ensures |Insert(x, s, before)| == |s| + 1
    ensures forall e :: e in Insert(x, s, before) <==> e == x || e in s
  {
    if s != [] && !before(x, s[0]) {
      InsertKeeps(x, s[1..], before);
      assert s == [s[0]] + s[1..];
    }
    PermutationMembers(Insert(x, s, before), [x] + s);
  }

  lemma {:induction false} InsertSorted<T>(x: T, s: seq<T>, all: seq<T>, before: (T, T) -> bool)
    requires Orders(before, all)
    requires x in all && forall e :: e in s ==> e in all
    requires Sorted(s, before)
    ensures Sorted(Insert(x, s, before), before)
  {
    if s != [] {
      assert s[0] in all;
      if before(x, s[0]) {
        forall e | e in s ensures !before(e, x) {
          assert !before(e, s[0]);
        }
        assert ([x] + s)[1..] == s;
      } else {
        InsertSorted(x, s[1..], all, before);
        InsertKeeps(x, s[1..], before);
        var tail := Insert(x, s[1..], before);
        assert Leads(s[0], tail, before);
        assert ([s[0]] + tail)[1..] == tail;
      }
    }
  }

  lemma {:induction false} SortKeeps<T>(s: seq<T>, before: (T, T) -> bool)
    ensures Permutation(Sort(s, before), s)
    ensures |Sort(s, before)| == |s|
  {
    if s != [] {
      var init, last := s[..|s| - 1], s[|s| - 1];
      assert s == init + [last];
      SortKeeps(init, before);
      InsertKeeps(last, Sort(init, before), before);
    }
    PermutationMembers(Sort(s, before), s);
  }

  lemma SortMember<T>(s: seq<T>, before: (T, T) -> bool, e: T)
    ensures e in Sort(s, before) <==> e in s
  {
    SortKeeps(s, before);
    PermutationMembers(Sort(s, before), s);
  }

  /** The sort answers a sorted permutation of its input. */
  lemma SortIsSorted<T>(s: seq<T>, before: (T, T) -> bool)
    requires Orders(before, s)
    ensures Permutation(Sort(s, before), s)
    ensures Sorted(Sort(s, before), before)
  {
    SortKeeps(s, before);
    PrefixSorted(s, s, before);
  }

  lemma {:induction false} PrefixSorted<T>(s: seq<T>, all: seq<T>, before: (T, T) -> bool)
    requires Orders(before, all)
    requires forall e :: e in s ==> e in all
    ensures Sorted(Sort(s, before), before)
  {
    if s != [] {
      var init, last := s[..|s| - 1], s[|s| - 1];
      assert s == init + [last];
      PrefixSorted(init, all, before);
      forall e | e in Sort(init, before) ensures e in all {
        SortMember(init, before, e);
        assert e in s;
      }
      InsertSorted(last, Sort(init, before), all, before);
      SortLast(init, last, s, before);
    }
  }

  lemma SortLast<T>(init: seq<T>, last: T, s: seq<T>, before: (T, T) -> bool)
    requires s == init + [last]
    ensures Sort(s, before) == Insert(last, Sort(init, before), before)
  {
    assert s[..|s| - 1] == init;
  }

  /** Two sorted permutations of one another are equal. */
  lemma {:induction false} SortedUnique<T>(s: seq<T>, t: seq<T>, before: (T, T) -> bool)
    requires Permutation(s, t)
    requires Orders(before, s)
    requires Sorted(s, before) && Sorted(t, before)
    ensures s == t
  {
    PermutationMembers(s, t);
    if s != [] {
      SameHead(s, t, before);
      PermutationTails(s, t);
      OrdersFewer(before, s, s[1..]);
      SortedUnique(s[1..], t[1..], before);
      assert s == [s[0]] + s[1..] && t == [t[0]] + t[1..];
    }
  }

  lemma PermutationTails<T>(s: seq<T>, t: seq<T>)
    requires Permutation(s, t) && s != [] && t != [] && s[0] == t[0]
    ensures Permutation(s[1..], t[1..])
  {
    assert s == [s[0]] + s[1..] && t == [t[0]] + t[1..];
    assert multiset(s[1..]) == multiset(s) - multiset{s[0]};
    assert multiset(t[1..]) == multiset(t) - multiset{s[0]};
  }

  lemma SameHead<T>(s: seq<T>, t: seq<T>, before: (T, T) -> bool)
    requires s != [] && t != []
    requires forall e :: e in s <==> e in t
    requires Orders(before, s)
    requires Leads(s[0], s[1..], before) && Leads(t[0], t[1..], before)
    ensures s[0] == t[0]
  {
    var a, b := s[0], t[0];
    assert a in s && b in t;
    assert s == [a] + s[1..] && t == [b] + t[1..];
  }

  /** Any sorted permutation of `s` is the one the sort computes. */
  lemma SortIsTheAnswer<T>(s: seq<T>, t: seq<T>, before: (T, T) -> bool)
    requires Orders(before, s)
    requires Permutation(t, s) && Sorted(t, before)
    ensures t == Sort(s, before)
  {
    SortIsSorted(s, before);
    SortKeeps(s, before);
    PermutationMembers(t, s);
    OrdersFewer(before, s, t);
    SortedUnique(t, Sort(s, before), before);
  }

  // ------------------------------------------------------------------- mapping

  function Map<S, T>(f: S -> T, s: seq<S>): (r: seq<T>)
    ensures |r| == |s|
    ensures forall i :: 0 <= i < |s| ==> r[i] == f(s[i])
  {
    seq(|s|, i requires 0 <= i < |s| => f(s[i]))
  }

  /** `before` sees nothing of an element that `f` does not keep. */
  ghost predicate Agree<S, T>(f: S -> T, s: seq<S>, before: (S, S) -> bool, before': (T, T) -> bool) {
    forall a, b :: a in s && b in s ==> before'(f(a), f(b)) == before(a, b)
  }

  /** The same, in place over an array. */
  method MapInPlace<T>(f: T -> T, a: array<T>)
    modifies a
    ensures a[..] == Map(f, old(a[..]))
  {
    ghost var was := a[..];
    for i := 0 to a.Length
      invariant forall k :: 0 <= k < i ==> a[k] == f(was[k])
      invariant forall k :: i <= k < a.Length ==> a[k] == was[k]
    {
      a[i] := f(a[i]);
    }
    assert a[..] == Map(f, was);
  }

  lemma {:induction false} MapInsert<S, T>(f: S -> T, x: S, s: seq<S>, before: (S, S) -> bool, before': (T, T) -> bool)
    requires forall e :: e in s ==> before'(f(x), f(e)) == before(x, e)
    ensures Map(f, Insert(x, s, before)) == Insert(f(x), Map(f, s), before')
  {
    if s != [] && !before(x, s[0]) {
      MapInsert(f, x, s[1..], before, before');
      assert Map(f, s)[1..] == Map(f, s[1..]);
      assert Map(f, s)[0] == f(s[0]);
    }
  }

  lemma AgreeFewer<S, T>(f: S -> T, s: seq<S>, t: seq<S>, before: (S, S) -> bool, before': (T, T) -> bool)
    requires Agree(f, s, before, before')
    requires forall e :: e in t ==> e in s
    ensures Agree(f, t, before, before')
  {
  }

  lemma MapInit<S, T>(f: S -> T, init: seq<S>, last: S)
    ensures Map(f, init + [last]) == Map(f, init) + [f(last)]
  {
  }

  /** Sorting does not look past what the order looks at. */
  lemma {:induction false} MapSort<S, T>(f: S -> T, s: seq<S>, before: (S, S) -> bool, before': (T, T) -> bool)
    requires Agree(f, s, before, before')
    ensures Map(f, Sort(s, before)) == Sort(Map(f, s), before')
  {
    if s != [] {
      var init, last := s[..|s| - 1], s[|s| - 1];
      assert s == init + [last];
      AgreeFewer(f, s, init, before, before');
      MapSort(f, init, before, before');
      MapSortStep(f, init, last, s, before, before');
    }
  }

  lemma MapSortStep<S, T>(
      f: S -> T, init: seq<S>, last: S, s: seq<S>, before: (S, S) -> bool, before': (T, T) -> bool)
    requires s == init + [last]
    requires Agree(f, s, before, before')
    requires Map(f, Sort(init, before)) == Sort(Map(f, init), before')
    ensures Map(f, Sort(s, before)) == Sort(Map(f, s), before')
  {
    forall e | e in Sort(init, before) ensures before'(f(last), f(e)) == before(last, e) {
      SortMember(init, before, e);
      assert e in s && last in s;
    }
    MapInsert(f, last, Sort(init, before), before, before');
    MapInit(f, init, last);
    SortLast(init, last, s, before);
    SortLast(Map(f, init), f(last), Map(f, s), before');
  }

  // ----------------------------------------------------------------- filtering

  /** The rows a WHERE clause keeps, in table order. */
  function Filter<T>(p: T -> bool, s: seq<T>): seq<T> {
    if s == [] then []
    else Filter(p, s[..|s| - 1]) + (if p(s[|s| - 1]) then [s[|s| - 1]] else [])
  }

  lemma FilterStep<T>(p: T -> bool, init: seq<T>, last: T)
    ensures Filter(p, init + [last]) == Filter(p, init) + (if p(last) then [last] else [])
  {
    assert (init + [last])[..|init|] == init;
  }

  lemma {:induction false} FilterMember<T>(p: T -> bool, s: seq<T>, e: T)
    ensures e in Filter(p, s) <==> e in s && p(e)
  {
    if s != [] {
      FilterMember(p, s[..|s| - 1], e);
      assert s == s[..|s| - 1] + [s[|s| - 1]];
    }
  }

  /** Filtering and then mapping sees only what the two tables agree on, row by row. */
  lemma {:induction false} FilterMap<S, T, U>(p: S -> bool, f: S -> U, s: seq<S>, q: T -> bool, g: T -> U, t: seq<T>)
    requires |s| == |t|
    requires forall i :: 0 <= i < |s| ==> p(s[i]) == q(t[i]) && (p(s[i]) ==> f(s[i]) == g(t[i]))
    ensures Map(f, Filter(p, s)) == Map(g, Filter(q, t))
  {
    if s != [] {
      var n := |s| - 1;
      FilterMap(p, f, s[..n], q, g, t[..n]);
      if p(s[n]) {
        MapInit(f, Filter(p, s[..n]), s[n]);
        MapInit(g, Filter(q, t[..n]), t[n]);
      }
    }
  }

  lemma {:induction false} SortedLast<T>(s: seq<T>, before: (T, T) -> bool)
    requires s != [] && Sorted(s, before) && !before(s[|s| - 1], s[|s| - 1])
    ensures forall e :: e in s ==> !before(s[|s| - 1], e)
  {
    if |s| > 1 {
      assert s[|s| - 1] == s[1..][|s| - 2];
      SortedLast(s[1..], before);
      assert s == [s[0]] + s[1..];
    }
  }

  /** `LIMIT n`. */
  function Limit<T>(s: seq<T>, n: nat): seq<T> {
    if |s| <= n then s else s[..n]
  }
}
