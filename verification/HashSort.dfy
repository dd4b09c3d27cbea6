/** HASH_SRT of include/uthash.h: the insertion-order list is sorted by relinking it in place. */
module HashSort {
  import opened UtHash
  import opened MergeSort

  /** s is linked forward and ends in null. */
  ghost predicate Nexted<T>(s: seq<Item<T>>)
    reads s`next
  {
    forall i :: 0 <= i < |s| ==> s[i].next == After(s, i)
  }

  /** s is linked forward; where its last item points does not matter. */
  ghost predicate Run<T>(s: seq<Item<T>>)
    reads s`next
  {
    forall i :: 0 <= i < |s| - 1 ==> s[i].next == s[i + 1]
  }

  /** s is linked both ways; where its last item points does not matter yet. */
  ghost predicate Woven<T>(s: seq<Item<T>>)
    reads s`prev, s`next
  {
    (forall i :: 0 <= i < |s| ==> s[i].prev == Before(s, i)) && Run(s)
  }

  /** The three stretches of the list share no item, repeat none, and have the items of u. */
  ghost predicate Parted<T>(u: set<Item<T>>, out: seq<Item<T>>, p: seq<Item<T>>, q: seq<Item<T>>) {
    Distinct(out) && Distinct(p) && Distinct(q) &&
    Elements(out) !! Elements(p) && Elements(out) !! Elements(q) && Elements(p) !! Elements(q) &&
    u == Elements(out) + Elements(p) + Elements(q)
  }

  lemma PartedP<T>(u: set<Item<T>>, out: seq<Item<T>>, p: seq<Item<T>>, q: seq<Item<T>>)
    requires Parted(u, out, p, q) && p != []
    ensures Parted(u, out + [p[0]], p[1..], q)
    ensures Distinct(out) && p[0] !in out && p[0] in u && Opt(Last(out)) <= u
    ensures Last(out) !in p[1..] && Last(out) !in q
  {
    Moves(out, p);
    assert p[0] in Elements(p);
    assert out != [] ==> Last(out) in Elements(out);
  }

  lemma PartedQ<T>(u: set<Item<T>>, out: seq<Item<T>>, p: seq<Item<T>>, q: seq<Item<T>>)
    requires Parted(u, out, p, q) && q != []
    ensures Parted(u, out + [q[0]], p, q[1..])
    ensures Distinct(out) && q[0] !in out && q[0] in u && Opt(Last(out)) <= u
    ensures Last(out) !in p && Last(out) !in q[1..]
  {
    Moves(out, q);
    assert q[0] in Elements(q);
    assert out != [] ==> Last(out) in Elements(out);
  }

  lemma Moves<T>(out: seq<Item<T>>, p: seq<Item<T>>)
    requires p != [] && Distinct(out) && Distinct(p) && Elements(out) !! Elements(p)
    ensures Distinct(out + [p[0]]) && Distinct(p[1..]) && p[0] !in out && p[0] !in p[1..]
    ensures Elements(p[1..]) == Elements(p) - {p[0]} && Elements(out + [p[0]]) == Elements(out) + {p[0]}
  {
    assert p[0] in Elements(p);
    assert p == [p[0]] + p[1..];
  }

  /** e goes to the end of the list that the pass builds. */
  method weave<T>(e: Item<T>, list: Item?<T>, tail: Item?<T>, ghost out: seq<Item<T>>)
    returns (list': Item?<T>, tail': Item?<T>)
    requires Woven(out) && list == First(out) && tail == Last(out) && e !in out && Distinct(out)
    modifies Opt(tail)`next, e`prev
    ensures Woven(out + [e]) && list' == First(out + [e]) && tail' == e
  {
    list' := list;
    if tail != null {
      tail.next := e;
    } else {
      list' := e;
    }
    e.prev := tail;
    tail' := e;
  }

  /** What is still to be merged after the next item went to out. */
  lemma MergeStepP<T>(out: seq<Item<T>>, p: seq<Item<T>>, r: seq<Item<T>>, cmp: Compare<Item<T>>)
    requires p != [] && (r == [] || cmp(p[0], r[0]) <= 0)
    ensures out + Merge(p, r, cmp) == out + [p[0]] + Merge(p[1..], r, cmp)
  {
    hide Merge;
    MergeHeadP(p, r, cmp);
    Associative(out, [p[0]], Merge(p[1..], r, cmp));
  }

  lemma MergeStepQ<T>(out: seq<Item<T>>, p: seq<Item<T>>, r: seq<Item<T>>, cmp: Compare<Item<T>>)
    requires r != [] && (p == [] || !(cmp(p[0], r[0]) <= 0))
    ensures out + Merge(p, r, cmp) == out + [r[0]] + Merge(p, r[1..], cmp)
  {
    hide Merge;
    MergeHeadQ(p, r, cmp);
    Associative(out, [r[0]], Merge(p, r[1..], cmp));
  }

  lemma TakeStep<T>(q: seq<Item<T>>, n: nat)
    requires q != [] && n > 0
    ensures Take(q, n) != [] && Take(q, n)[0] == q[0] && Take(q, n)[1..] == Take(q[1..], n - 1)
    ensures Drop(q, n) == Drop(q[1..], n - 1)
  {
  }

  lemma NothingTaken<T>(q: seq<Item<T>>, n: nat)
    requires q == [] || n == 0
    ensures Take(q, n) == [] && Drop(q, n) == q
  {
  }

  /** The while loop that merges a run of psize items at p with one of up to qsize items at q. */
  method mergeRuns<T>(cmp: Compare<Item<T>>, p0: Item?<T>, psize0: nat, q0: Item?<T>, qsize0: nat,
                      list0: Item?<T>, tail0: Item?<T>, ghost u: set<Item<T>>,
                      ghost out0: seq<Item<T>>, ghost ps: seq<Item<T>>, ghost qs: seq<Item<T>>)
    returns (list: Item?<T>, tail: Item?<T>, q: Item?<T>, ghost out: seq<Item<T>>)
    requires |ps| == psize0 && Run(ps) && Nexted(qs) && (ps != [] ==> p0 == ps[0]) && q0 == First(qs)
    requires Woven(out0) && list0 == First(out0) && tail0 == Last(out0) && Parted(u, out0, ps, qs)
    modifies u`prev, u`next
    ensures out == out0 + Merge(ps, Take(qs, qsize0), cmp)
    ensures Woven(out) && list == First(out) && tail == Last(out)
    ensures Nexted(Drop(qs, qsize0)) && q == First(Drop(qs, qsize0))
    ensures Parted(u, out, [], Drop(qs, qsize0))
  {
    hide Parted, Merge, Take, Drop, Woven, Elements;
    var p, psize, qsize := p0, psize0, qsize0;
    ghost var ps', qs' := ps, qs;
    list, tail, q, out := list0, tail0, q0, out0;
    while psize != 0 || (qsize != 0 && q != null)
      invariant |ps'| == psize && Run(ps') && Nexted(qs') && (ps' != [] ==> p == ps'[0]) && q == First(qs')
      invariant Woven(out) && list == First(out) && tail == Last(out) && Parted(u, out, ps', qs')
      invariant out + Merge(ps', Take(qs', qsize), cmp) == out0 + Merge(ps, Take(qs, qsize0), cmp)
      invariant Drop(qs', qsize) == Drop(qs, qsize0)
      decreases psize + qsize
    {
      ghost var r := Take(qs', qsize);
      if qs' == [] || qsize == 0 {
        NothingTaken(qs', qsize);
      } else {
        TakeStep(qs', qsize);
      }
      ghost var fromP := psize != 0 && (qsize == 0 || q == null || cmp(p, q) <= 0);
      if fromP {
        PartedP(u, out, ps', qs');
        MergeStepP(out, ps', r, cmp);
        ps' := ps'[1..];
      } else {
        PartedQ(u, out, ps', qs');
        MergeStepQ(out, ps', r, cmp);
        qs' := qs'[1..];
      }
      var e;
      if psize == 0 {
        e := q;
        q := q.next;
        qsize := qsize - 1;
      } else if qsize == 0 || q == null {
        e := p;
        if p != null {
          p := p.next;
        }
        psize := psize - 1;
      } else if cmp(p, q) <= 0 {
        e := p;
        if p != null {
          p := p.next;
        }
        psize := psize - 1;
      } else {
        e := q;
        q := q.next;
        qsize := qsize - 1;
      }
      list, tail := weave(e, list, tail, out);
      out := out + [e];
    }
    NothingTaken(qs', qsize);
    assert Merge(ps', [], cmp) == [] by { Nothing(ps', cmp); }
  }

  lemma Nothing<T>(p: seq<Item<T>>, cmp: Compare<Item<T>>)
    requires p == []
    ensures Merge(p, [], cmp) == []
  {
  }

  /** The for loop that looks for the second run. */
  method advance<T>(p: Item<T>, insize: nat, ghost rest: seq<Item<T>>) returns (q: Item?<T>, psize: nat)
    requires rest != [] && p == rest[0] && Nexted(rest) && insize > 0
    ensures psize == |Take(rest, insize)| && q == First(Drop(rest, insize))
  {
    q := p;
    psize := 0;
    var i := 0;
    while i < insize
      invariant psize == i < |rest| && i <= insize && q == rest[i]
    {
      psize := psize + 1;
      q := q.next;
      if q == null {
        break;
      }
      i := i + 1;
    }
  }

  lemma PartedStart<T>(s: seq<Item<T>>)
    requires Distinct(s)
    ensures Parted(Elements(s), [], [], s)
  {
  }

  lemma PartedEnd<T>(u: set<Item<T>>, out: seq<Item<T>>)
    requires Parted(u, out, [], [])
    ensures Distinct(out) && Elements(out) == u
  {
  }

  lemma PartedCut<T>(u: set<Item<T>>, out: seq<Item<T>>, rest: seq<Item<T>>, k: nat)
    requires Parted(u, out, [], rest)
    ensures Parted(u, out, Take(rest, k), Drop(rest, k))
  {
    var p, q := Take(rest, k), Drop(rest, k);
    Split(rest, k);
    DistinctHalves(p, q);
    assert Elements(rest) == Elements(p) + Elements(q);
  }

  lemma DistinctHalves<T>(p: seq<Item<T>>, q: seq<Item<T>>)
    requires Distinct(p + q)
    ensures Distinct(p) && Distinct(q) && Elements(p) !! Elements(q)
  {
    var s := p + q;
    forall i, j | 0 <= i < j < |p| ensures p[i] != p[j] {
      assert s[i] == p[i] && s[j] == p[j];
    }
    forall i, j | 0 <= i < |p| && 0 <= j < |q| ensures p[i] != q[j] {
      assert s[i] == p[i] && s[|p| + j] == q[j];
    }
    forall i, j | 0 <= i < j < |q| ensures q[i] != q[j] {
      assert s[|p| + i] == q[i] && s[|p| + j] == q[j];
    }
  }

  lemma NextedCut<T>(rest: seq<Item<T>>, k: nat)
    requires Nexted(rest)
    ensures Run(Take(rest, k)) && Nexted(Drop(rest, k))
  {
  }

  /** One turn of the outer loop: a pass with runs of insize items. */
  method pass<T>(cmp: Compare<Item<T>>, first: Item<T>, insize: nat, ghost s: seq<Item<T>>,
                 ghost u: set<Item<T>>)
    returns (list: Item?<T>, tail: Item?<T>, nmerges: nat)
    requires s != [] && first == s[0] && Nexted(s) && Distinct(s) && insize > 0 && u == Elements(s)
    modifies u`prev, u`next
    ensures nmerges == Merges(|s|, insize)
    ensures var out := Pass(s, insize, cmp);
            Listed(out) && Distinct(out) && Elements(out) == u && list == First(out) && tail == Last(out)
  {
    hide Parted, Merge, Take, Drop, Woven, Elements, Nexted, Run, Listed, Distinct;
    var p: Item?<T> := first;
    list, tail, nmerges := null, null, 0;
    ghost var out, rest: seq<Item<T>> := [], s;
    PartedStart(s);
    WovenStart<T>();
    while p != null
      invariant Nexted(rest) && p == First(rest) && Parted(u, out, [], rest)
      invariant Woven(out) && list == First(out) && tail == Last(out)
      invariant out + Pass(rest, insize, cmp) == Pass(s, insize, cmp)
      invariant nmerges + Merges(|rest|, insize) == Merges(|s|, insize)
      decreases |rest|
    {
      nmerges := nmerges + 1;
      var q, psize := advance(p, insize, rest);
      PassStep(out, rest, insize, cmp);
      PartedCut(u, out, rest, insize);
      NextedCut(rest, insize);
      HeadOfTake(rest, insize);
      ghost var ps, qs := Take(rest, insize), Drop(rest, insize);
      list, tail, p, out := mergeRuns(cmp, p, psize, q, insize, list, tail, u, out, ps, qs);
      rest := Drop(qs, insize);
    }
    PartedEnd(u, out);
    assert Pass<Item<T>>([], insize, cmp) == [] && out == Pass(s, insize, cmp);
    LastIn(out, u);
    finish(tail, out);
  }

  /** Once its last item points nowhere, the list of the pass is complete. */
  method finish<T>(tail: Item?<T>, ghost out: seq<Item<T>>)
    requires Woven(out) && tail == Last(out) && Distinct(out)
    modifies Opt(tail)`next
    ensures Listed(out)
  {
    if tail != null {
      tail.next := null;
    }
  }

  lemma WovenStart<T>()
    ensures Woven<T>([])
  {
  }

  lemma HeadOfTake<T>(rest: seq<Item<T>>, k: nat)
    requires rest != [] && k > 0
    ensures Take(rest, k) != [] && Take(rest, k)[0] == rest[0]
  {
  }

  lemma PassStep<T>(out: seq<Item<T>>, rest: seq<Item<T>>, k: nat, cmp: Compare<Item<T>>)
    requires rest != [] && k > 0
    ensures var qs := Drop(rest, k);
            out + Pass(rest, k, cmp) == out + Merge(Take(rest, k), Take(qs, k), cmp) + Pass(Drop(qs, k), k, cmp)
            && |Drop(qs, k)| < |rest|
            && Merges(|rest|, k) == 1 + Merges(|Drop(qs, k)|, k)
  {
    hide Merge, Pass, Merges;
    var qs := Drop(rest, k);
    PassHead(rest, k, cmp);
    MergesHead(rest, k);
    Associative(out, Merge(Take(rest, k), Take(qs, k), cmp), Pass(Drop(qs, k), k, cmp));
  }

  lemma LastIn<T>(out: seq<Item<T>>, u: set<Item<T>>)
    requires Elements(out) == u
    ensures Opt(Last(out)) <= u
  {
  }

  lemma ListedIsNexted<T>(s: seq<Item<T>>)
    requires Listed(s)
    ensures Nexted(s)
  {
  }

  /** HASH_SRT: the list becomes the stable sort of what it was; keys, buckets and counts stay. */
  method sort<T>(t: Table<T>, cmp: Compare<Item<T>>)
    requires t.Valid()
    modifies t`head, t`tail, t`items, t.items`prev, t.items`next
    ensures t.Valid() && t.items == SortFrom(old(t.items), 1, cmp)
  {
    hide Listed, Distinct, Nexted, Pass, Merges, UtHash.Elements, Keyed, Holds, Total;
    if t.head != null {
      var insize, looping := 1, true;
      var list := t.head;
      ghost var s, cur := t.items, t.items;
      ghost var u := Elements(s);
      Within(s);
      while looping
        invariant insize > 0 && list != null && list == First(cur) && u == Elements(cur)
        invariant Listed(cur) && Distinct(cur)
        invariant looping ==> SortFrom(cur, insize, cmp) == SortFrom(s, 1, cmp)
        invariant !looping ==> cur == SortFrom(s, 1, cmp) && t.head == First(cur) && t.tail == Last(cur)
        decreases looping, |cur| - insize
      {
        ListedIsNexted(cur);
        FewMerges(|cur|, insize);
        var tail, nmerges;
        list, tail, nmerges := pass(cmp, list, insize, cur, u);
        cur := Pass(cur, insize, cmp);
        if nmerges <= 1 {
          looping := false;
          t.tail := tail;
          t.head := list;
        }
        insize := insize * 2;
      }
      t.items := cur;
      assert t.AppOrder() && t.InBuckets(Elements(t.items));
    } else {
      EmptySort(cmp);
    }
  }

  lemma Within<T>(s: seq<Item<T>>)
    ensures forall x :: x in Elements(s) ==> x in s
  {
  }

  lemma EmptySort<T>(cmp: Compare<Item<T>>)
    ensures SortFrom<Item<T>>([], 1, cmp) == []
  {
  }
}
