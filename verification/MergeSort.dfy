/** What HASH_SRT computes: a bottom-up merge sort on sequences, and that it is a stable sort. */
module MergeSort {

  type Compare<!E> = (E, E) -> int

  ghost function Take<E>(s: seq<E>, k: nat): seq<E> { if k < |s| then s[..k] else s }

  ghost function Drop<E>(s: seq<E>, k: nat): seq<E> { if k < |s| then s[k..] else [] }

  /** On a tie the element of the first run goes first. */
  ghost function Merge<E>(p: seq<E>, q: seq<E>, cmp: Compare<E>): (r: seq<E>)
    ensures |r| == |p| + |q|
  {
    if p == [] then q
    else if q == [] then p
    else if cmp(p[0], q[0]) <= 0 then [p[0]] + Merge(p[1..], q, cmp)
    else [q[0]] + Merge(p, q[1..], cmp)
  }

  lemma Associative<E>(a: seq<E>, b: seq<E>, c: seq<E>)
    ensures a + (b + c) == a + b + c
  {
  }

  /** The head of p goes first, also when the other run is used up. */
  lemma MergeHeadP<E>(p: seq<E>, q: seq<E>, cmp: Compare<E>)
    requires p != [] && (q == [] || cmp(p[0], q[0]) <= 0)
    ensures Merge(p, q, cmp) == [p[0]] + Merge(p[1..], q, cmp)
  {
    assert p == [p[0]] + p[1..];
    if q == [] { assert Merge(p[1..], q, cmp) == p[1..]; }
  }

  lemma MergeHeadQ<E>(p: seq<E>, q: seq<E>, cmp: Compare<E>)
    requires q != [] && (p == [] || !(cmp(p[0], q[0]) <= 0))
    ensures Merge(p, q, cmp) == [q[0]] + Merge(p, q[1..], cmp)
  {
    assert q == [q[0]] + q[1..];
    if p == [] { assert Merge(p, q[1..], cmp) == q[1..]; }
  }

  /** One pass: neighbouring runs of k elements are merged two by two. */
  ghost function Pass<E>(s: seq<E>, k: nat, cmp: Compare<E>): (r: seq<E>)
    requires k > 0
    ensures |r| == |s|
    decreases |s|
  {
    if s == [] then []
    else Merge(Take(s, k), Take(Drop(s, k), k), cmp) + Pass(Drop(Drop(s, k), k), k, cmp)
  }

  /** How many merges the pass does. */
  ghost function Merges(n: nat, k: nat): nat
    requires k > 0
    decreases n
  {
    if n == 0 then 0 else 1 + Merges(if n > 2 * k then n - 2 * k else 0, k)
  }

  lemma PassHead<E>(s: seq<E>, k: nat, cmp: Compare<E>)
    requires s != [] && k > 0
    ensures var d := Drop(s, k);
            Pass(s, k, cmp) == Merge(Take(s, k), Take(d, k), cmp) + Pass(Drop(d, k), k, cmp)
  {
    hide Merge, Take, Drop;
  }

  lemma MergesHead<E>(s: seq<E>, k: nat)
    requires s != [] && k > 0
    ensures var r := Drop(Drop(s, k), k);
            |r| < |s| && Merges(|s|, k) == 1 + Merges(|r|, k)
  {
  }

  /** The passes from run length k on, until one of them needs at most one merge. */
  ghost function SortFrom<E>(s: seq<E>, k: nat, cmp: Compare<E>): (r: seq<E>)
    requires k > 0
    ensures |r| == |s|
    decreases |s| - k
  {
    var r := Pass(s, k, cmp);
    if Merges(|s|, k) <= 1 then r
    else
      FewMerges(|s|, k);
      SortFrom(r, 2 * k, cmp)
  }

  lemma FewMerges(n: nat, k: nat)
    requires k > 0
    ensures Merges(n, k) <= 1 <==> n <= 2 * k
  {
  }

  // ---- What sorting means

  ghost predicate Sorted<E>(s: seq<E>, cmp: Compare<E>) {
    forall i, j :: 0 <= i < j < |s| ==> cmp(s[i], s[j]) <= 0
  }

  /** The comparison orders the elements of s, ties allowed. */
  ghost predicate Orders<E>(cmp: Compare<E>, s: seq<E>) {
    (forall x, y :: x in s && y in s ==> cmp(x, y) <= 0 || cmp(y, x) <= 0) &&
    (forall x, y, z :: x in s && y in s && z in s && cmp(x, y) <= 0 && cmp(y, z) <= 0 ==> cmp(x, z) <= 0)
  }

  ghost predicate Ties<E>(g: E, x: E, cmp: Compare<E>) {
    cmp(g, x) <= 0 && cmp(x, g) <= 0
  }

  /** The elements that tie with g, in order. */
  ghost function Class<E>(g: E, s: seq<E>, cmp: Compare<E>): seq<E> {
    if s == [] then []
    else (if Ties(g, s[0], cmp) then [s[0]] else []) + Class(g, s[1..], cmp)
  }

  // ---- Permutation

  lemma {:induction false} MergePermutes<E>(p: seq<E>, q: seq<E>, cmp: Compare<E>)
    ensures multiset(Merge(p, q, cmp)) == multiset(p) + multiset(q)
    decreases |p| + |q|
  {
    if p != [] && q != [] {
      assert p == [p[0]] + p[1..] && q == [q[0]] + q[1..];
      if cmp(p[0], q[0]) <= 0 {
        MergePermutes(p[1..], q, cmp);
      } else {
        MergePermutes(p, q[1..], cmp);
      }
    }
  }

  lemma Split<E>(s: seq<E>, k: nat)
    ensures s == Take(s, k) + Drop(s, k)
  {
  }

  lemma {:induction false} PassPermutes<E>(s: seq<E>, k: nat, cmp: Compare<E>)
    requires k > 0
    ensures multiset(Pass(s, k, cmp)) == multiset(s)
    decreases |s|
  {
    if s != [] {
      var p, d := Take(s, k), Drop(s, k);
      var q, r := Take(d, k), Drop(d, k);
      Split(s, k);
      Split(d, k);
      MergePermutes(p, q, cmp);
      PassPermutes(r, k, cmp);
    }
  }

  lemma {:induction false} SortPermutes<E>(s: seq<E>, k: nat, cmp: Compare<E>)
    requires k > 0
    ensures multiset(SortFrom(s, k, cmp)) == multiset(s)
    decreases |s| - k
  {
    PassPermutes(s, k, cmp);
    FewMerges(|s|, k);
    if Merges(|s|, k) > 1 {
      SortPermutes(Pass(s, k, cmp), 2 * k, cmp);
    }
  }

  // ---- Order

  lemma OrdersPermuted<E>(s: seq<E>, t: seq<E>, cmp: Compare<E>)
    requires Orders(cmp, s) && multiset(s) == multiset(t)
    ensures Orders(cmp, t)
  {
    hide Orders;
    forall x | x in t ensures x in s {
      assert x in multiset(t);
    }
    OrdersFewer(s, t, cmp);
  }

  /** The two runs that are merged first, and the rest. */
  lemma OrdersRuns<E>(s: seq<E>, k: nat, g: seq<E>, cmp: Compare<E>)
    requires Orders(cmp, s + g)
    ensures var d := Drop(s, k);
            Orders(cmp, Take(s, k) + Take(d, k) + g) && Orders(cmp, Drop(d, k) + g)
  {
    hide Orders;
    var d := Drop(s, k);
    OrdersFewer(s + g, Take(s, k) + Take(d, k) + g, cmp);
    OrdersFewer(s + g, Drop(d, k) + g, cmp);
  }

  lemma SortedPrepend<E>(x: E, m: seq<E>, cmp: Compare<E>)
    requires Sorted(m, cmp) && forall i :: 0 <= i < |m| ==> cmp(x, m[i]) <= 0
    ensures Sorted([x] + m, cmp)
  {
  }

  lemma TailSorted<E>(p: seq<E>, cmp: Compare<E>)
    requires p != [] && Sorted(p, cmp)
    ensures Sorted(p[1..], cmp)
  {
  }

  lemma OrdersFewer<E>(s: seq<E>, t: seq<E>, cmp: Compare<E>)
    requires Orders(cmp, s) && forall x :: x in t ==> x in s
    ensures Orders(cmp, t)
  {
  }

  lemma {:induction false} MergeSorted<E>(p: seq<E>, q: seq<E>, cmp: Compare<E>)
    requires Orders(cmp, p + q) && Sorted(p, cmp) && Sorted(q, cmp)
    ensures Sorted(Merge(p, q, cmp), cmp)
    decreases |p| + |q|
  {
    hide Orders, Sorted, Merge;
    if p == [] || q == [] {
      MergeWithNone(p, q, cmp);
    } else {
      TailSorted(p, cmp);
      TailSorted(q, cmp);
      var first := cmp(p[0], q[0]) <= 0;
      if first { MergeHeadP(p, q, cmp); } else { MergeHeadQ(p, q, cmp); }
      var x := if first then p[0] else q[0];
      var p', q' := if first then p[1..] else p, if first then q else q[1..];
      OrdersFewer(p + q, p' + q', cmp);
      MergeSorted(p', q', cmp);
      MergePermutes(p', q', cmp);
      HeadBeforeMerge(p, q, p', q', x, Merge(p', q', cmp), cmp);
      SortedPrepend(x, Merge(p', q', cmp), cmp);
    }
  }

  lemma MergeWithNone<E>(p: seq<E>, q: seq<E>, cmp: Compare<E>)
    requires p == [] || q == []
    ensures Merge(p, q, cmp) == p + q && (p + q == p || p + q == q)
  {
  }

  lemma HeadBeforeMerge<E>(p: seq<E>, q: seq<E>, p': seq<E>, q': seq<E>, x: E, m: seq<E>, cmp: Compare<E>)
    requires Orders(cmp, p + q) && Sorted(p, cmp) && Sorted(q, cmp) && p != [] && q != []
    requires x == if cmp(p[0], q[0]) <= 0 then p[0] else q[0]
    requires p' == p || p' == p[1..]
    requires q' == q || q' == q[1..]
    requires multiset(m) == multiset(p') + multiset(q')
    ensures forall i :: 0 <= i < |m| ==> cmp(x, m[i]) <= 0
  {
    hide Orders, Sorted;
    forall i | 0 <= i < |m| ensures cmp(x, m[i]) <= 0 {
      assert m[i] in multiset(m);
      LeastHead(p, q, x, m[i], cmp);
    }
  }

  lemma LeastHead<E>(p: seq<E>, q: seq<E>, x: E, y: E, cmp: Compare<E>)
    requires Orders(cmp, p + q) && Sorted(p, cmp) && Sorted(q, cmp) && p != [] && q != []
    requires x == if cmp(p[0], q[0]) <= 0 then p[0] else q[0]
    requires y in p || y in q
    ensures cmp(x, y) <= 0
  {
    var a, b := p[0], q[0];
    assert a in p + q && b in p + q && y in p + q;
    assert y in p ==> cmp(a, y) <= 0 by {
      if y in p { var i :| 0 <= i < |p| && p[i] == y; }
    }
    assert y in q ==> cmp(b, y) <= 0 by {
      if y in q { var i :| 0 <= i < |q| && q[i] == y; }
    }
  }

  /** Every run of k elements of s is sorted. */
  ghost predicate RunsSorted<E>(s: seq<E>, k: nat, cmp: Compare<E>)
    requires k > 0
    decreases |s|
  {
    s == [] || (Sorted(Take(s, k), cmp) && RunsSorted(Drop(s, k), k, cmp))
  }

  lemma {:induction false} SingleRuns<E>(s: seq<E>, cmp: Compare<E>)
    ensures RunsSorted(s, 1, cmp)
    decreases |s|
  {
    if s != [] { SingleRuns(Drop(s, 1), cmp); }
  }

  /** A pass doubles the length of the sorted runs. */
  lemma {:induction false} PassRuns<E>(s: seq<E>, k: nat, cmp: Compare<E>)
    requires k > 0 && RunsSorted(s, k, cmp) && Orders(cmp, s)
    ensures RunsSorted(Pass(s, k, cmp), 2 * k, cmp)
    decreases |s|
  {
    hide Sorted, Orders;
    if s != [] {
      var p, d := Take(s, k), Drop(s, k);
      var q, r := Take(d, k), Drop(d, k);
      var m, t := Merge(p, q, cmp), Pass(r, k, cmp);
      EmptySorted(cmp);
      assert s + [] == s && p + q + [] == p + q && r + [] == r;
      OrdersRuns(s, k, [], cmp);
      MergeSorted(p, q, cmp);
      PassRuns(r, k, cmp);
      assert Take(m + t, 2 * k) == m && Drop(m + t, 2 * k) == t;
    }
  }

  lemma EmptySorted<E>(cmp: Compare<E>)
    ensures Sorted([], cmp)
  {
  }

  /** The result of the sort is sorted. */
  lemma {:induction false} SortSorts<E>(s: seq<E>, k: nat, cmp: Compare<E>)
    requires k > 0 && RunsSorted(s, k, cmp) && Orders(cmp, s)
    ensures Sorted(SortFrom(s, k, cmp), cmp)
    decreases |s| - k
  {
    hide Orders, Sorted;
    var r := Pass(s, k, cmp);
    PassRuns(s, k, cmp);
    FewMerges(|s|, k);
    EmptySorted(cmp);
    if Merges(|s|, k) <= 1 {
      assert Take(r, 2 * k) == r;
    } else {
      PassPermutes(s, k, cmp);
      OrdersPermuted(s, r, cmp);
      SortSorts(r, 2 * k, cmp);
    }
  }

  // ---- Stability

  lemma {:induction false} ClassConcat<E>(g: E, s: seq<E>, t: seq<E>, cmp: Compare<E>)
    ensures Class(g, s + t, cmp) == Class(g, s, cmp) + Class(g, t, cmp)
  {
    if s == [] {
      assert s + t == t;
    } else {
      hide Ties;
      assert (s + t)[1..] == s[1..] + t;
      ClassConcat(g, s[1..], t, cmp);
      Associative(if Ties(g, s[0], cmp) then [s[0]] else [], Class(g, s[1..], cmp), Class(g, t, cmp));
    }
  }

  /** An element that is strictly before a sorted run ties with none of it. */
  lemma {:induction false} ClassEmpty<E>(g: E, s: seq<E>, x: E, cmp: Compare<E>)
    requires Ties(g, x, cmp) && (forall i :: 0 <= i < |s| ==> !Ties(g, s[i], cmp))
    ensures Class(g, s, cmp) == []
  {
    if s != [] { ClassEmpty(g, s[1..], x, cmp); }
  }

  lemma {:induction false} MergeStable<E>(g: E, p: seq<E>, q: seq<E>, cmp: Compare<E>)
    requires Orders(cmp, p + q + [g]) && Sorted(p, cmp)
    ensures Class(g, Merge(p, q, cmp), cmp) == Class(g, p, cmp) + Class(g, q, cmp)
    decreases |p| + |q|
  {
    hide Orders, Sorted, Ties;
    var m := Merge(p, q, cmp);
    if p != [] && q != [] {
      if cmp(p[0], q[0]) <= 0 {
        TailSorted(p, cmp);
        OrdersFewer(p + q + [g], p[1..] + q + [g], cmp);
        MergeStable(g, p[1..], q, cmp);
        ClassConcat(g, [p[0]], Merge(p[1..], q, cmp), cmp);
        ClassConcat(g, [p[0]], p[1..], cmp);
        assert p == [p[0]] + p[1..];
      } else {
        OrdersFewer(p + q + [g], p + q[1..] + [g], cmp);
        MergeStable(g, p, q[1..], cmp);
        ClassConcat(g, [q[0]], Merge(p, q[1..], cmp), cmp);
        ClassConcat(g, [q[0]], q[1..], cmp);
        assert q == [q[0]] + q[1..];
        NoTieBefore(g, p, q, cmp);
      }
    }
  }

  /** When the head of q goes first and ties with g, nothing in p does. */
  lemma NoTieBefore<E>(g: E, p: seq<E>, q: seq<E>, cmp: Compare<E>)
    requires Orders(cmp, p + q + [g]) && Sorted(p, cmp) && p != [] && q != []
    requires !(cmp(p[0], q[0]) <= 0)
    ensures Ties(g, q[0], cmp) ==> Class(g, p, cmp) == []
  {
    if Ties(g, q[0], cmp) {
      var all := p + q + [g];
      assert g in all && q[0] in all;
      forall i | 0 <= i < |p| ensures !Ties(g, p[i], cmp) {
        assert p[i] in all && p[0] in all;
        assert cmp(p[0], p[i]) <= 0;
      }
      ClassEmpty(g, p, q[0], cmp);
    }
  }

  lemma {:induction false} PassStable<E>(g: E, s: seq<E>, k: nat, cmp: Compare<E>)
    requires k > 0 && RunsSorted(s, k, cmp) && Orders(cmp, s + [g])
    ensures Class(g, Pass(s, k, cmp), cmp) == Class(g, s, cmp)
    decreases |s|
  {
    hide Orders, Sorted, Class, Merge;
    if s != [] {
      var p, d := Take(s, k), Drop(s, k);
      var q, r := Take(d, k), Drop(d, k);
      Split(s, k);
      Split(d, k);
      OrdersRuns(s, k, [g], cmp);
      EmptySorted(cmp);
      MergeStable(g, p, q, cmp);
      PassStable(g, r, k, cmp);
      ClassParts(g, p, q, r, cmp);
      ClassConcat(g, Merge(p, q, cmp), Pass(r, k, cmp), cmp);
    }
  }

  lemma ClassParts<E>(g: E, p: seq<E>, q: seq<E>, r: seq<E>, cmp: Compare<E>)
    ensures Class(g, p + (q + r), cmp) == Class(g, p, cmp) + Class(g, q, cmp) + Class(g, r, cmp)
  {
    ClassConcat(g, p, q + r, cmp);
    ClassConcat(g, q, r, cmp);
  }

  /** Elements that tie keep their order. */
  lemma {:induction false} SortStable<E>(g: E, s: seq<E>, k: nat, cmp: Compare<E>)
    requires k > 0 && RunsSorted(s, k, cmp) && Orders(cmp, s + [g])
    ensures Class(g, SortFrom(s, k, cmp), cmp) == Class(g, s, cmp)
    decreases |s| - k
  {
    hide Orders, Sorted, Ties, Class;
    var r := Pass(s, k, cmp);
    OrdersFewer(s + [g], s, cmp);
    PassStable(g, s, k, cmp);
    FewMerges(|s|, k);
    if Merges(|s|, k) > 1 {
      PassRuns(s, k, cmp);
      PassPermutes(s, k, cmp);
      assert multiset(s + [g]) == multiset(r + [g]);
      OrdersPermuted(s + [g], r + [g], cmp);
      SortStable(g, r, 2 * k, cmp);
    }
  }

  /** HASH_SRT as a whole: always a permutation, and for a comparison that orders the elements a
      sorted one in which elements that tie keep their order. */
  lemma StableSort<E>(s: seq<E>, cmp: Compare<E>)
    ensures multiset(SortFrom(s, 1, cmp)) == multiset(s)
    ensures Orders(cmp, s) ==> Sorted(SortFrom(s, 1, cmp), cmp)
    ensures Orders(cmp, s) ==> forall g :: g in s ==> Class(g, SortFrom(s, 1, cmp), cmp) == Class(g, s, cmp)
  {
    hide Orders, Sorted, Class, SortFrom;
    SortPermutes(s, 1, cmp);
    SingleRuns(s, cmp);
    if Orders(cmp, s) {
      SortSorts(s, 1, cmp);
      forall g | g in s ensures Class(g, SortFrom(s, 1, cmp), cmp) == Class(g, s, cmp) {
        OrdersFewer(s, s + [g], cmp);
        SortStable(g, s, 1, cmp);
      }
    }
  }
}
