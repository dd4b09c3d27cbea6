/** include/uthash.h: the intrusive hash table behind every peer, supernode and community list. An
    element and the UT_hash_handle inside it are one object, so the pointer arithmetic between the
    two is the identity. */
module UtHash {
  import opened Bits

  type byte = x: int | 0 <= x < 256
  type Key = seq<byte>

  class Item<T> {
    const data: T
    var key: Key
    var hashv: nat
    var prev: Item?<T>      // insertion order
    var next: Item?<T>
    var hhPrev: Item?<T>    // bucket order
    var hhNext: Item?<T>

    constructor (data: T, key: Key)
      ensures this.data == data && this.key == key
    {
      this.data, this.key := data, key;
      hashv, prev, next, hhPrev, hhNext := 0, null, null, null, null;
    }
  }

  datatype Bucket<T> = Bucket(hhHead: Item?<T>, count: nat, expandMult: nat)

  // ---- Doubly linked lists of items

  ghost predicate Distinct<T>(s: seq<Item<T>>) {
    forall i, j :: 0 <= i < j < |s| ==> s[i] != s[j]
  }

  ghost function First<T>(s: seq<Item<T>>): Item?<T> { if s == [] then null else s[0] }

  ghost function Last<T>(s: seq<Item<T>>): Item?<T> { if s == [] then null else s[|s| - 1] }

  ghost function Before<T>(s: seq<Item<T>>, i: nat): Item?<T>
    requires i < |s|
  {
    if i == 0 then null else s[i - 1]
  }

  ghost function After<T>(s: seq<Item<T>>, i: nat): Item?<T>
    requires i < |s|
  {
    if i + 1 == |s| then null else s[i + 1]
  }

  /** The insertion-order list is s. */
  ghost predicate Listed<T>(s: seq<Item<T>>)
    reads s`prev, s`next
  {
    forall i :: 0 <= i < |s| ==> s[i].prev == Before(s, i) && s[i].next == After(s, i)
  }

  /** A bucket chain is s. */
  ghost predicate Linked<T>(s: seq<Item<T>>)
    reads s`hhPrev, s`hhNext
  {
    forall i :: 0 <= i < |s| ==> s[i].hhPrev == Before(s, i) && s[i].hhNext == After(s, i)
  }

  /** The bucket b heads the chain c and counts it right. */
  ghost predicate Chained<T>(c: seq<Item<T>>, b: Bucket<T>)
    reads c`hhPrev, c`hhNext
  {
    Distinct(c) && Linked(c) && b.hhHead == First(c) && b.count == |c|
  }

  ghost function Opt<T>(o: Item?<T>): set<Item<T>> { if o == null then {} else {o} }

  /** The relinking of HASH_ADD_TO_BKT and of HASH_EXPAND_BUCKETS: x becomes the head. */
  method push<T>(x: Item<T>, old_: Bucket<T>, ghost c: seq<Item<T>>) returns (b: Bucket<T>)
    requires Chained(c, old_) && x !in c
    modifies x`hhPrev, x`hhNext, Opt(old_.hhHead)`hhPrev
    ensures Chained([x] + c, b) && b.expandMult == old_.expandMult && b.count == old_.count + 1
  {
    x.hhNext := old_.hhHead;
    x.hhPrev := null;
    if old_.hhHead != null {
      old_.hhHead.hhPrev := x;
    }
    b := Bucket(x, old_.count + 1, old_.expandMult);
    ghost var d := [x] + c;
    assert forall i :: 0 <= i < |c| ==> d[i + 1] == c[i];
  }

  ghost function Without<T>(c: seq<T>, k: nat): (d: seq<T>)
    requires k < |c|
    ensures |d| == |c| - 1
    ensures forall i :: 0 <= i < |d| ==> d[i] == if i < k then c[i] else c[i + 1]
  {
    c[..k] + c[k + 1..]
  }

  ghost function IndexOf<T>(s: seq<T>, x: T): (k: nat)
    requires x in s
    ensures k < |s| && s[k] == x
  {
    var k :| 0 <= k < |s| && s[k] == x;
    k
  }

  /** The list without its k-th item, once the two neighbours skip it. */
  lemma SkippedInList<T>(c: seq<Item<T>>, k: nat)
    requires k < |c|
    requires forall j :: 0 <= j < |c| && j != k + 1 ==> c[j].prev == Before(c, j)
    requires forall j :: 0 <= j < |c| && j != k - 1 ==> c[j].next == After(c, j)
    requires k + 1 < |c| ==> c[k + 1].prev == Before(c, k)
    requires k > 0 ==> c[k - 1].next == After(c, k)
    ensures Listed(Without(c, k))
  {
    var d := Without(c, k);
    forall i | 0 <= i < |d| ensures d[i].prev == Before(d, i) && d[i].next == After(d, i) {
      var j := if i < k then i else i + 1;
      assert d[i] == c[j];
      if i > 0 { assert d[i - 1] == c[if i - 1 < k then i - 1 else i]; }
      if i + 1 < |d| { assert d[i + 1] == c[if i + 1 < k then i + 1 else i + 2]; }
    }
  }

  /** The chain without its k-th item, once the two neighbours skip it. */
  lemma SkippedInChain<T>(c: seq<Item<T>>, k: nat)
    requires k < |c|
    requires forall j :: 0 <= j < |c| && j != k + 1 ==> c[j].hhPrev == Before(c, j)
    requires forall j :: 0 <= j < |c| && j != k - 1 ==> c[j].hhNext == After(c, j)
    requires k + 1 < |c| ==> c[k + 1].hhPrev == Before(c, k)
    requires k > 0 ==> c[k - 1].hhNext == After(c, k)
    ensures Linked(Without(c, k))
  {
    var d := Without(c, k);
    forall i | 0 <= i < |d| ensures d[i].hhPrev == Before(d, i) && d[i].hhNext == After(d, i) {
      var j := if i < k then i else i + 1;
      assert d[i] == c[j];
      if i > 0 { assert d[i - 1] == c[if i - 1 < k then i - 1 else i]; }
      if i + 1 < |d| { assert d[i + 1] == c[if i + 1 < k then i + 1 else i + 2]; }
    }
  }

  /** HASH_DEL_IN_BKT. */
  method unlink<T>(x: Item<T>, old_: Bucket<T>, ghost c: seq<Item<T>>, ghost k: nat) returns (b: Bucket<T>)
    requires Chained(c, old_) && k < |c| && c[k] == x
    modifies Opt(x.hhPrev)`hhNext, Opt(x.hhNext)`hhPrev
    ensures Chained(Without(c, k), b) && b.expandMult == old_.expandMult
  {
    hide Distinct, Without;
    Neighbours(c, k);
    var head := old_.hhHead;
    if head == x {
      head := x.hhNext;
    }
    if x.hhPrev != null {
      x.hhPrev.hhNext := x.hhNext;
    }
    if x.hhNext != null {
      x.hhNext.hhPrev := x.hhPrev;
    }
    b := Bucket(head, old_.count - 1, old_.expandMult);
    SkippedInChain(c, k);
    Shortened(c, k);
  }

  /** Only its neighbours are the items before and after the k-th. */
  lemma Neighbours<T>(c: seq<Item<T>>, k: nat)
    requires k < |c| && Distinct(c)
    ensures forall j :: 0 <= j < |c| && j != k - 1 ==> c[j] != Before(c, k)
    ensures forall j :: 0 <= j < |c| && j != k + 1 ==> c[j] != After(c, k)
  {
  }

  lemma Shortened<T>(c: seq<Item<T>>, k: nat)
    requires k < |c| && Distinct(c)
    ensures Distinct(Without(c, k))
    ensures First(Without(c, k)) == if k == 0 then After(c, 0) else c[0]
    ensures |c| > 1 ==> Last(Without(c, k)) == if k + 1 == |c| then c[k - 1] else c[|c| - 1]
  {
  }

  /** The relinking of HASH_DELETE_HH in insertion order. */
  method unlist<T>(x: Item<T>, head: Item<T>, tail: Item<T>, ghost c: seq<Item<T>>, ghost k: nat)
    returns (head': Item?<T>, tail': Item?<T>)
    requires Distinct(c) && Listed(c) && k < |c| && c[k] == x && |c| > 1
    requires head == c[0] && tail == Last(c)
    modifies Opt(x.prev)`next, Opt(x.next)`prev
    ensures Distinct(Without(c, k)) && Listed(Without(c, k))
    ensures head' == First(Without(c, k)) && tail' == Last(Without(c, k))
  {
    hide Distinct, Without;
    Neighbours(c, k);
    head', tail' := head, tail;
    if x == tail {
      tail' := x.prev;
    }
    if x.prev != null {
      x.prev.next := x.next;
    } else {
      head' := x.next;
    }
    if x.next != null {
      x.next.prev := x.prev;
    }
    SkippedInList(c, k);
    Shortened(c, k);
  }

  // ---- A bucket array

  /** HASH_TO_BKT. */
  function Home(hashv: nat, numBuckets: nat): nat
    requires numBuckets > 0
  {
    BitAnd(hashv, numBuckets - 1)
  }

  /** With a power of two of buckets the home is one of them. */
  lemma HomeInRange(hashv: nat, log2: nat)
    ensures Home(hashv, Pow2(log2)) == hashv % Pow2(log2) < Pow2(log2)
  {
    AndMask(hashv, log2);
  }

  ghost function Total<T>(chains: seq<seq<Item<T>>>): nat {
    if chains == [] then 0
    else
      var n := |chains| - 1;
      Total(chains[..n]) + |chains[n]|
  }

  lemma {:induction false} TotalUpdate<T>(chains: seq<seq<Item<T>>>, b: nat, c: seq<Item<T>>)
    requires b < |chains|
    ensures Total(chains[b := c]) == Total(chains) - |chains[b]| + |c|
  {
    var u, n := chains[b := c], |chains| - 1;
    if b == n {
      assert u[..n] == chains[..n];
    } else {
      assert u[..n] == chains[..n][b := c];
      TotalUpdate(chains[..n], b, c);
    }
  }

  /** Every item of s has its home among the chains. */
  ghost predicate AtHome<T>(s: set<Item<T>>, chains: seq<seq<Item<T>>>)
    reads s`hashv
  {
    forall x :: x in s ==>
      |chains| > 0 && Home(x.hashv, |chains|) < |chains| && x in chains[Home(x.hashv, |chains|)]
  }

  /** The chains hold only items of s, each in its home. */
  ghost predicate NoStranger<T>(s: set<Item<T>>, chains: seq<seq<Item<T>>>)
    reads s`hashv
  {
    forall b, x :: 0 <= b < |chains| && x in chains[b] ==> x in s && Home(x.hashv, |chains|) == b
  }

  /** The bucket array bks with these chains holds exactly the items of s. */
  ghost predicate Holds<T>(s: set<Item<T>>, chains: seq<seq<Item<T>>>, bks: seq<Bucket<T>>)
    reads s`hashv, s`hhPrev, s`hhNext
  {
    |bks| == |chains| && AtHome(s, chains) && NoStranger(s, chains) &&
    forall b :: 0 <= b < |chains| ==> Chained(chains[b], bks[b])
  }

  lemma Unpack<T>(s: set<Item<T>>, chains: seq<seq<Item<T>>>, bks: seq<Bucket<T>>)
    requires Holds(s, chains, bks)
    ensures |chains| == |bks| && AtHome(s, chains) && NoStranger(s, chains)
    ensures forall i :: 0 <= i < |chains| ==> Chained(chains[i], bks[i]) && bks[i].hhHead == First(chains[i])
  {
  }

  lemma Assemble<T>(b: nat, c: seq<Item<T>>, nb: Bucket<T>, s: set<Item<T>>,
                    chains: seq<seq<Item<T>>>, bks: seq<Bucket<T>>)
    requires |chains| == |bks| && b < |chains| && Chained(c, nb)
    requires forall i :: 0 <= i < |chains| && i != b ==> Chained(chains[i], bks[i])
    requires AtHome(s, chains[b := c]) && NoStranger(s, chains[b := c])
    ensures Holds(s, chains[b := c], bks[b := nb])
  {
    hide Chained, AtHome, NoStranger;
  }

  /** HASH_ADD_TO_BKT without the expansion, and the body of the loop of HASH_EXPAND_BUCKETS: x
      enters the array at the head of bucket b. */
  method insert<T>(x: Item<T>, b: nat, bks: seq<Bucket<T>>, ghost s: set<Item<T>>,
                   ghost chains: seq<seq<Item<T>>>)
    returns (bks': seq<Bucket<T>>, ghost chains': seq<seq<Item<T>>>)
    requires Holds(s, chains, bks) && x !in s
    requires |chains| > 0 && b == Home(x.hashv, |chains|) < |chains|
    modifies x`hhPrev, x`hhNext, s`hhPrev
    ensures chains' == chains[b := [x] + chains[b]] && Total(chains') == Total(chains) + 1
    ensures Holds(s + {x}, chains', bks')
    ensures |bks'| == |bks| && bks'[b].expandMult == bks[b].expandMult && bks'[b].count == bks[b].count + 1
    ensures forall i :: 0 <= i < |bks| && i != b ==> bks'[i] == bks[i]
  {
    hide Holds, Chained, AtHome, NoStranger, Total, Home, First;
    Unpack(s, chains, bks);
    ghost var c, h := chains[b], bks[b].hhHead;
    chains' := chains[b := [x] + c];
    TotalUpdate(chains, b, [x] + c);
    HomesOfInserted(x, b, s, chains);
    InTable(b, s, chains);
    forall i | 0 <= i < |chains| && i != b ensures x !in chains[i] && h !in chains[i] {
      HeadElsewhere(i, b, x, s, chains);
    }
    NotInChain(b, x, s, chains);
    var nb := push(x, bks[b], c);
    bks' := bks[b := nb];
    Assemble(b, [x] + c, nb, s + {x}, chains, bks);
  }

  lemma NotInChain<T>(b: nat, x: Item<T>, s: set<Item<T>>, chains: seq<seq<Item<T>>>)
    requires NoStranger(s, chains) && b < |chains| && x !in s
    ensures x !in chains[b]
  {
  }

  lemma HomesOfInserted<T>(x: Item<T>, b: nat, s: set<Item<T>>, chains: seq<seq<Item<T>>>)
    requires AtHome(s, chains) && NoStranger(s, chains)
    requires |chains| > 0 && b == Home(x.hashv, |chains|) < |chains|
    ensures AtHome(s + {x}, chains[b := [x] + chains[b]])
    ensures NoStranger(s + {x}, chains[b := [x] + chains[b]])
  {
    hide Home;
  }

  /** Chains are disjoint, because an item is only in the chain of its home. */
  lemma Elsewhere<T>(i: nat, b: nat, s: set<Item<T>>, chains: seq<seq<Item<T>>>)
    requires NoStranger(s, chains) && b < |chains| && i < |chains| && i != b
    ensures forall y :: y in chains[i] ==> y in s && y !in chains[b]
  {
    forall y | y in chains[i] ensures y in s && y !in chains[b] {
      assert Home(y.hashv, |chains|) == i;
    }
  }

  lemma HeadElsewhere<T>(i: nat, b: nat, x: Item<T>, s: set<Item<T>>, chains: seq<seq<Item<T>>>)
    requires NoStranger(s, chains) && b < |chains| && i < |chains| && i != b && x !in s
    ensures x !in chains[i] && First(chains[b]) !in chains[i]
  {
    Elsewhere(i, b, s, chains);
  }

  lemma InTable<T>(b: nat, s: set<Item<T>>, chains: seq<seq<Item<T>>>)
    requires NoStranger(s, chains) && b < |chains|
    ensures Opt(First(chains[b])) <= s
  {
  }

  /** Every bucket has the same expand_mult. */
  ghost predicate SameMults<T>(bks: seq<Bucket<T>>, bks': seq<Bucket<T>>) {
    |bks| == |bks'| && forall i :: 0 <= i < |bks| ==> bks'[i].expandMult == bks[i].expandMult
  }

  lemma SameMultsBut<T>(bks: seq<Bucket<T>>, bks': seq<Bucket<T>>, b: nat)
    requires |bks| == |bks'| && b < |bks| && bks'[b].expandMult == bks[b].expandMult
    requires forall i :: 0 <= i < |bks| && i != b ==> bks'[i] == bks[i]
    ensures SameMults(bks, bks')
  {
  }

  /** x leaves the array: HASH_DEL_IN_BKT on its bucket. */
  method extract<T>(x: Item<T>, b: nat, bks: seq<Bucket<T>>, ghost s: set<Item<T>>,
                    ghost chains: seq<seq<Item<T>>>)
    returns (bks': seq<Bucket<T>>, ghost chains': seq<seq<Item<T>>>)
    requires Holds(s, chains, bks) && x in s
    requires |chains| > 0 && b == Home(x.hashv, |chains|)
    modifies s`hhPrev, s`hhNext
    ensures |chains'| == |chains| && Total(chains') == Total(chains) - 1
    ensures Holds(s - {x}, chains', bks') && SameMults(bks, bks')
    ensures forall i :: 0 <= i < |bks| && i != b ==> bks'[i] == bks[i]
  {
    hide Holds, Chained, AtHome, NoStranger, Total, Home, Without, Before, After;
    Unpack(s, chains, bks);
    ghost var k := Place(x, b, s, chains, bks);
    ghost var c, p, n := chains[b], x.hhPrev, x.hhNext;
    chains' := chains[b := Without(c, k)];
    TotalUpdate(chains, b, Without(c, k));
    WithoutLength(c, k);
    HomesOfExtracted(b, k, s, chains);
    forall i | 0 <= i < |chains| && i != b ensures p !in chains[i] && n !in chains[i] {
      Elsewhere(i, b, s, chains);
    }
    var nb := unlink(x, bks[b], c, k);
    bks' := bks[b := nb];
    Assemble(b, Without(c, k), nb, s - {x}, chains, bks);
  }

  lemma WithoutLength<T>(c: seq<T>, k: nat)
    requires k < |c|
    ensures |Without(c, k)| == |c| - 1
  {
  }

  /** Where extract finds x, and that its neighbours are in the table. */
  lemma Place<T>(x: Item<T>, b: nat, s: set<Item<T>>, chains: seq<seq<Item<T>>>, bks: seq<Bucket<T>>)
    returns (k: nat)
    requires Holds(s, chains, bks) && x in s
    requires |chains| > 0 && b == Home(x.hashv, |chains|)
    ensures b < |chains| && k < |chains[b]| && chains[b][k] == x
    ensures x.hhPrev == Before(chains[b], k) && x.hhNext == After(chains[b], k)
    ensures Distinct(chains[b])
    ensures Opt(x.hhPrev) <= s && Opt(x.hhNext) <= s
    ensures x.hhPrev == null || x.hhPrev in chains[b]
    ensures x.hhNext == null || x.hhNext in chains[b]
    ensures NoStranger(s, chains)
  {
    var c := chains[b];
    k :| 0 <= k < |c| && c[k] == x;
    assert Chained(c, bks[b]);
    assert forall y :: y in c ==> y in s;
  }

  lemma HomesOfExtracted<T>(b: nat, k: nat, s: set<Item<T>>, chains: seq<seq<Item<T>>>)
    requires AtHome(s, chains) && NoStranger(s, chains)
    requires b < |chains| && k < |chains[b]| && Distinct(chains[b])
    ensures AtHome(s - {chains[b][k]}, chains[b := Without(chains[b], k)])
    ensures NoStranger(s - {chains[b][k]}, chains[b := Without(chains[b], k)])
  {
    var c, d := chains[b], Without(chains[b], k);
    assert forall y :: y in d ==> y in c && y != c[k];
    forall y | y in c && y != c[k] ensures y in d {
      var i :| 0 <= i < |c| && c[i] == y;
      assert d[if i < k then i else i - 1] == y;
    }
    forall i | 0 <= i < |chains| && i != b ensures c[k] !in chains[i] {
      Elsewhere(i, b, s, chains);
    }
    hide Without;
  }

  // ---- All the chains of a bucket array

  ghost function Elements<T>(s: seq<Item<T>>): set<Item<T>> { set x | x in s }

  /** From its m-th item on, the chain c can be walked forward. */
  ghost predicate Forward<T>(c: seq<Item<T>>, m: nat)
    reads c`hhNext
  {
    forall j :: m <= j < |c| ==> c[j].hhNext == After(c, j)
  }

  /** The items of the chains lo to hi - 1. */
  ghost function Union<T>(chains: seq<seq<Item<T>>>, lo: nat, hi: nat): set<Item<T>> {
    set b, x | lo <= b < hi && b < |chains| && x in chains[b] :: x
  }

  /** What a valid bucket array says about its chains without looking into the items. */
  ghost predicate Partition<T>(s: set<Item<T>>, chains: seq<seq<Item<T>>>, bks: seq<Bucket<T>>) {
    |bks| == |chains| && s == Union(chains, 0, |chains|) &&
    (forall i :: 0 <= i < |chains| ==> Distinct(chains[i]) && bks[i].hhHead == First(chains[i])) &&
    (forall i, j, x :: 0 <= i < j < |chains| && x in chains[i] ==> x !in chains[j])
  }

  lemma PartitionOf<T>(s: set<Item<T>>, chains: seq<seq<Item<T>>>, bks: seq<Bucket<T>>)
    requires Holds(s, chains, bks)
    ensures Partition(s, chains, bks)
  {
    forall i | 0 <= i < |chains| ensures Distinct(chains[i]) && bks[i].hhHead == First(chains[i]) {
      assert Chained(chains[i], bks[i]);
    }
    forall i, j, x | 0 <= i < j < |chains| && x in chains[i] ensures x !in chains[j] {
      Elsewhere(i, j, s, chains);
    }
    hide Chained, Home;
    assert s == Union(chains, 0, |chains|);
  }

  /** Chain i between those before and those after it. */
  lemma SplitAt<T>(s: set<Item<T>>, chains: seq<seq<Item<T>>>, bks: seq<Bucket<T>>, i: nat)
    requires Partition(s, chains, bks) && i < |chains|
    ensures Distinct(chains[i]) && bks[i].hhHead == First(chains[i])
    ensures Elements(chains[i]) !! Union(chains, 0, i)
    ensures Elements(chains[i]) <= s && Union(chains, 0, i) <= s
    ensures Union(chains, 0, i + 1) == Union(chains, 0, i) + Elements(chains[i])
    ensures Union(chains, i + 1, |chains|) <= s
    ensures forall x :: x in Union(chains, i + 1, |chains|) ==> x !in chains[i]
    ensures Total(chains[..i + 1]) == Total(chains[..i]) + |chains[i]|
  {
    assert chains[..i + 1][..i] == chains[..i];
  }

  /** The chains from the lo-th on consist of items of rest and can be walked forward. */
  ghost predicate Walkable<T>(chains: seq<seq<Item<T>>>, lo: nat, rest: set<Item<T>>)
    reads rest`hhNext
  {
    forall i :: lo <= i < |chains| ==> (forall x :: x in chains[i] ==> x in rest) && Forward(chains[i], 0)
  }

  lemma WalkableNext<T>(chains: seq<seq<Item<T>>>, lo: nat, rest: set<Item<T>>)
    requires Walkable(chains, lo, rest) && lo < |chains|
    ensures Forward(chains[lo], 0) && Walkable(chains, lo + 1, Union(chains, lo + 1, |chains|))
  {
  }

  lemma WalkableOf<T>(s: set<Item<T>>, chains: seq<seq<Item<T>>>, bks: seq<Bucket<T>>)
    requires Holds(s, chains, bks)
    ensures Walkable(chains, 0, s)
  {
    forall i | 0 <= i < |chains| ensures Forward(chains[i], 0) && (forall x :: x in chains[i] ==> x in s) {
      assert Chained(chains[i], bks[i]);
    }
  }

  lemma {:induction false} EmptyChains<T>(chains: seq<seq<Item<T>>>, bks: seq<Bucket<T>>, ideal: nat)
    requires |chains| == |bks|
    requires forall i :: 0 <= i < |chains| ==> chains[i] == [] && bks[i] == Bucket(null, 0, 0)
    ensures Holds({}, chains, bks) && Total(chains) == 0
    ensures Excess(chains, ideal) == 0 && Multiplied(chains, bks, ideal)
  {
    if chains != [] {
      var n := |chains| - 1;
      EmptyChains(chains[..n], bks[..n], ideal);
    }
  }

  // ---- Moving a whole chain


  /** How many items sit beyond position ideal of their chain. */
  ghost function Excess<T>(chains: seq<seq<Item<T>>>, ideal: nat): nat {
    if chains == [] then 0
    else
      var n := |chains| - 1;
      Excess(chains[..n], ideal) + if |chains[n]| > ideal then |chains[n]| - ideal else 0
  }

  lemma {:induction false} ExcessUpdate<T>(chains: seq<seq<Item<T>>>, b: nat, c: seq<Item<T>>, ideal: nat)
    requires b < |chains| && |c| == |chains[b]| + 1
    ensures Excess(chains[b := c], ideal) == Excess(chains, ideal) + if |c| > ideal then 1 else 0
  {
    var u, n := chains[b := c], |chains| - 1;
    if b == n {
      assert u[..n] == chains[..n];
    } else {
      assert u[..n] == chains[..n][b := c];
      ExcessUpdate(chains[..n], b, c, ideal);
    }
  }

  /** The value of expand_mult for a bucket that HASH_EXPAND_BUCKETS filled with count items. */
  ghost function ExpandMult(count: nat, ideal: nat): nat {
    if count == 0 then 0
    else
      var m := ExpandMult(count - 1, ideal);
      if count > ideal && count > m * ideal then m + 1 else m
  }

  /** The smallest length that chains of n items in b buckets can have. */
  ghost function CeilDiv(n: nat, b: nat): nat
    requires b > 0
  {
    (n + b - 1) / b
  }

  lemma CeilDivBounds(n: nat, b: nat)
    requires b > 0
    ensures (CeilDiv(n, b) - 1) * b < n <= CeilDiv(n, b) * b
  {
    var q, r := (n + b - 1) / b, (n + b - 1) % b;
    assert n + b - 1 == b * q + r;
    Product(q, b);
  }

  lemma Product(q: int, b: int)
    ensures (q - 1) * b == b * q - b && q * b == b * q
  {
  }

  /** It is what the bounds say, and no other number. */
  lemma CeilDivIs(n: nat, b: nat, q: int)
    requires b > 0 && n > 0 && (q - 1) * b < n <= q * b
    ensures CeilDiv(n, b) == q
  {
    Product(q, b);
    Remainder(n + b - 1, b, q, n + b - 1 - b * q);
  }

  /** expand_mult is 0 up to the ideal length. Beyond it, it is the number of elements too many, but not
      more than the quotient by the ideal length, rounded up. */
  lemma {:induction false} ExpandMultValue(count: nat, ideal: nat)
    requires ideal > 0
    ensures ExpandMult(count, ideal) ==
            if count <= ideal then 0
            else if count - ideal <= CeilDiv(count, ideal) then count - ideal else CeilDiv(count, ideal)
  {
    if count > 0 {
      hide CeilDiv;
      ExpandMultValue(count - 1, ideal);
      if count > ideal { NextMult(count, ideal, ExpandMult(count - 1, ideal)); }
    }
  }

  lemma Multipliers<T>(chains: seq<seq<Item<T>>>, bks: seq<Bucket<T>>, ideal: nat)
    requires Multiplied(chains, bks, ideal)
    ensures |chains| == |bks| && forall b :: 0 <= b < |bks| ==> bks[b].expandMult == ExpandMult(|chains[b]|, ideal)
    ensures ideal > 0 ==> forall b :: 0 <= b < |bks| ==>
              var n := |chains[b]|;
              bks[b].expandMult ==
              if n <= ideal then 0 else if n - ideal <= CeilDiv(n, ideal) then n - ideal else CeilDiv(n, ideal)
  {
    hide CeilDiv;
    if ideal > 0 {
      forall b | 0 <= b < |bks|
        ensures var n := |chains[b]|;
                bks[b].expandMult ==
                if n <= ideal then 0 else if n - ideal <= CeilDiv(n, ideal) then n - ideal else CeilDiv(n, ideal)
      {
        ExpandMultValue(|chains[b]|, ideal);
      }
    }
  }

  lemma NextMult(c: nat, i: nat, m: nat)
    requires c > i > 0
    requires m == if c - 1 <= i then 0
                  else if c - 1 - i <= CeilDiv(c - 1, i) then c - 1 - i else CeilDiv(c - 1, i)
    ensures var k := CeilDiv(c, i); (if c > m * i then m + 1 else m) == if c - i <= k then c - i else k
  {
    hide CeilDiv;
    CeilDivBounds(c, i);
    CeilDivBounds(c - 1, i);
    var k, l := CeilDiv(c, i), CeilDiv(c - 1, i);
    Product(k, i);
    Product(l, i);
    CeilDivGrows(c, i);
    if c > m * i {
      if k <= m { MoreTimes(k, m, i); }
    } else {
      if m < k { MoreTimes(m, k - 1, i); }
    }
  }

  lemma MoreTimes(a: nat, b: nat, i: nat)
    requires a <= b
    ensures a * i <= b * i
  {
  }

  lemma CeilDivGrows(c: nat, i: nat)
    requires c > i > 0
    ensures CeilDiv(c - 1, i) <= CeilDiv(c, i) <= CeilDiv(c - 1, i) + 1 && CeilDiv(c, i) >= 2
  {
    hide CeilDiv;
    var l := CeilDiv(c - 1, i);
    CeilDivBounds(c - 1, i);
    Product(l + 1, i);
    if c <= l * i { CeilDivIs(c, i, l); } else { CeilDivIs(c, i, l + 1); }
    CeilDivBounds(c, i);
    if CeilDiv(c, i) < 2 { MoreTimes(CeilDiv(c, i), 1, i); }
  }

  ghost predicate Multiplied<T>(chains: seq<seq<Item<T>>>, bks: seq<Bucket<T>>, ideal: nat) {
    |chains| == |bks| && forall b :: 0 <= b < |bks| ==> bks[b].expandMult == ExpandMult(|chains[b]|, ideal)
  }

  /** One turn of the inner loop of HASH_EXPAND_BUCKETS. */
  method rehash<T>(x: Item<T>, bks: seq<Bucket<T>>, ideal: nat, nonideal: nat,
                   ghost s: set<Item<T>>, ghost chains: seq<seq<Item<T>>>, ghost log2: nat)
    returns (bks': seq<Bucket<T>>, nonideal': nat, ghost chains': seq<seq<Item<T>>>)
    requires |chains| == Pow2(log2) && Holds(s, chains, bks) && x !in s
    requires nonideal == Excess(chains, ideal) && Multiplied(chains, bks, ideal)
    modifies x`hhPrev, x`hhNext, s`hhPrev
    ensures |chains'| == |chains| && Holds(s + {x}, chains', bks') && Total(chains') == Total(chains) + 1
    ensures nonideal' == Excess(chains', ideal) && Multiplied(chains', bks', ideal)
  {
    HomeInRange(x.hashv, log2);
    var b := Home(x.hashv, |bks|);
    assert Chained(chains[b], bks[b]);
    var mult, count := bks[b].expandMult, bks[b].count + 1;
    nonideal' := nonideal;
    if count > ideal {
      nonideal' := nonideal' + 1;
      if count > mult * ideal {
        mult := mult + 1;
      }
    }
    assert mult == ExpandMult(count, ideal);
    ExcessUpdate(chains, b, [x] + chains[b], ideal);
    hide Home, Holds, Excess, ExpandMult;
    bks', chains' := insert(x, b, bks, s, chains);
    bks' := bks'[b := bks'[b].(expandMult := mult)];
  }

  /** The inner loop of HASH_EXPAND_BUCKETS: the whole chain c, which starts at thh, moves over. */
  method rehashChain<T>(first: Item?<T>, bks: seq<Bucket<T>>, ideal: nat, nonideal: nat,
                        ghost c: seq<Item<T>>, ghost s: set<Item<T>>,
                        ghost chains: seq<seq<Item<T>>>, ghost log2: nat)
    returns (bks': seq<Bucket<T>>, nonideal': nat, ghost chains': seq<seq<Item<T>>>)
    requires |chains| == Pow2(log2) && Holds(s, chains, bks)
    requires first == First(c) && Distinct(c) && Forward(c, 0) && Elements(c) !! s
    requires nonideal == Excess(chains, ideal) && Multiplied(chains, bks, ideal)
    modifies c`hhPrev, c`hhNext, s`hhPrev
    ensures |chains'| == |chains| && Holds(s + Elements(c), chains', bks')
    ensures Total(chains') == Total(chains) + |c|
    ensures nonideal' == Excess(chains', ideal) && Multiplied(chains', bks', ideal)
  {
    bks', nonideal', chains' := bks, nonideal, chains;
    var thh := first;
    ghost var m := 0;
    ghost var moved := s;
    hide Holds, Excess, Multiplied, Total;
    while thh != null
      invariant m <= |c| && thh == (if m < |c| then c[m] else null)
      invariant Forward(c, m)
      invariant moved == s + Elements(c[..m])
      invariant |chains'| == |chains| && Holds(moved, chains', bks')
      invariant Total(chains') == Total(chains) + m
      invariant nonideal' == Excess(chains', ideal) && Multiplied(chains', bks', ideal)
      decreases |c| - m
    {
      var nxt := thh.hhNext;
      Disjoint(c, m, s);
      bks', nonideal', chains' := rehash(thh, bks', ideal, nonideal', moved, chains', log2);
      moved := moved + {thh};
      m := m + 1;
      thh := nxt;
    }
    assert c[..m] == c;
  }

  lemma Disjoint<T>(c: seq<Item<T>>, m: nat, s: set<Item<T>>)
    requires m < |c| && Distinct(c) && Elements(c) !! s
    ensures c[m] !in s + Elements(c[..m])
    ensures Elements(c[..m + 1]) == Elements(c[..m]) + {c[m]}
    ensures forall j :: m < j < |c| ==> c[j] != c[m]
    ensures forall x :: x in s + Elements(c[..m]) ==> x in s || x in c
  {
    assert c[..m + 1] == c[..m] + [c[m]];
    assert c[m] in Elements(c);
  }

  const INITIAL_NUM_BUCKETS := 32
  const INITIAL_NUM_BUCKETS_LOG2 := 5
  const CAPACITY_THRESH := 10

  /** The loops of HASH_EXPAND_BUCKETS. */
  method rehashAll<T>(bks: seq<Bucket<T>>, numBuckets: nat, ideal: nat, ghost s: set<Item<T>>,
                      ghost chains: seq<seq<Item<T>>>, ghost log2: nat)
    returns (bks': seq<Bucket<T>>, nonideal': nat, ghost chains': seq<seq<Item<T>>>)
    requires |bks| == numBuckets == Pow2(log2) && Holds(s, chains, bks)
    modifies s`hhPrev, s`hhNext
    ensures |bks'| == 2 * numBuckets && Holds(s, chains', bks') && Total(chains') == Total(chains)
    ensures nonideal' == Excess(chains', ideal) && Multiplied(chains', bks', ideal)
  {
    hide *;
    Unpack(s, chains, bks);
    PartitionOf(s, chains, bks);
    WalkableOf(s, chains, bks);
    Bounds(s, chains, bks);
    Doubled(log2);
    bks' := seq(2 * numBuckets, i => Bucket(null, 0, 0));
    chains' := seq(2 * numBuckets, i => []);
    nonideal' := 0;
    EmptyChains(chains', bks', ideal);
    ghost var moved, rest, n := {}, s, 0;
    var i := 0;
    while i < numBuckets
      invariant i <= numBuckets && moved == Union(chains, 0, i) && Walkable(chains, i, rest)
      invariant n == Total(chains[..i]) && Total(chains') == n
      invariant |chains'| == 2 * numBuckets && Holds(moved, chains', bks')
      invariant nonideal' == Excess(chains', ideal) && Multiplied(chains', bks', ideal)
    {
      SplitAt(s, chains, bks, i);
      WalkableNext(chains, i, rest);
      rest := Union(chains, i + 1, |chains|);
      label Before:
      bks', nonideal', chains' :=
        rehashChain(bks[i].hhHead, bks', ideal, nonideal', chains[i], moved, chains', log2 + 1);
      assert forall x :: x in rest ==> x.hhNext == old@Before(x.hhNext);
      n := n + |chains[i]|;
      i := i + 1;
      moved := Union(chains, 0, i);
    }
    SameLength(s, chains', bks');
  }

  lemma Bounds<T>(s: set<Item<T>>, chains: seq<seq<Item<T>>>, bks: seq<Bucket<T>>)
    requires Partition(s, chains, bks)
    ensures Union(chains, 0, 0) == {} && Union(chains, 0, |chains|) == s
    ensures Total(chains[..0]) == 0 && chains[..|chains|] == chains
  {
  }

  lemma SameLength<T>(s: set<Item<T>>, chains: seq<seq<Item<T>>>, bks: seq<Bucket<T>>)
    requires Holds(s, chains, bks)
    ensures |chains| == |bks|
  {
  }

  lemma QuotientIsNat(n: nat, p: nat)
    requires p > 0
    ensures n / p >= 0
  {
  }

  /** The division by shift and mask of HASH_EXPAND_BUCKETS rounds up. */
  function ChainMaxlen(numItems: nat, numBuckets: nat, log2: nat): nat
    requires numBuckets > 0
  {
    QuotientIsNat(numItems, Pow2(log2));
    numItems / Pow2(log2) + if BitAnd(numItems, numBuckets - 1) != 0 then 1 else 0
  }

  lemma ExactCeiling(n: nat, log2: nat)
    ensures ChainMaxlen(n, Pow2(log2), log2) == CeilDiv(n, Pow2(log2))
  {
    AndMask(n, log2);
    RoundUp(n, Pow2(log2));
  }

  lemma Doubled(n: nat)
    ensures Pow2(n + 1) == 2 * Pow2(n)
  {
  }

  lemma RoundUp(n: nat, b: nat)
    requires b > 0
    ensures CeilDiv(n, b) == n / b + if n % b != 0 then 1 else 0
  {
    var q, r := n / b, n % b;
    if r == 0 {
      Remainder(n + b - 1, b, q, b - 1);
    } else {
      Remainder(n + b - 1, b, q + 1, r - 1);
    }
  }

  /** The map m has exactly the items of s, each under its key, and their hash values fit. */
  ghost predicate Keyed<T>(s: set<Item<T>>, m: map<Key, Item<T>>, hash: Key -> nat)
    reads s`key, s`hashv
  {
    (forall x :: x in s ==> x.hashv == hash(x.key) && x.key in m && m[x.key] == x) &&
    (forall k :: k in m ==> m[k] in s && m[k].key == k)
  }

  lemma KeyedAdd<T>(s: set<Item<T>>, m: map<Key, Item<T>>, hash: Key -> nat, x: Item<T>)
    requires Keyed(s, m, hash) && x.key !in m && x.hashv == hash(x.key)
    ensures Keyed(s + {x}, m[x.key := x], hash)
  {
  }

  lemma Extended<T>(items: seq<Item<T>>, x: Item<T>)
    ensures Elements(items + [x]) == Elements(items) + {x}
    ensures items == [] ==> Elements(items) == {}
    ensures [] + [x] == [x]
  {
  }

  lemma Removed<T>(items: seq<Item<T>>, k: nat, s: set<Item<T>>)
    requires k < |items| && Distinct(items) && s == Elements(items)
    ensures items[k] in s && |Without(items, k)| == |items| - 1
    ensures forall y :: y in s ==> y in items
    ensures Elements(Without(items, k)) == s - {items[k]}
    ensures |items| == 1 ==> Without(items, k) == [] && s - {items[k]} == {}
  {
    var d := Without(items, k);
    forall y | y in items && y != items[k] ensures y in d {
      var i :| 0 <= i < |items| && items[i] == y;
      assert d[if i < k then i else i - 1] == y;
    }
  }

  lemma EmptiedKeyed<T>(s: set<Item<T>>, m: map<Key, Item<T>>, hash: Key -> nat)
    requires s == {} && Keyed(s, m, hash)
    ensures m == map[]
  {
  }

  lemma EmptyKeyed<T>(s: set<Item<T>>, m: map<Key, Item<T>>, hash: Key -> nat)
    requires s == {} && m == map[]
    ensures Keyed(s, m, hash)
  {
  }

  lemma KeyedRemove<T>(s: set<Item<T>>, m: map<Key, Item<T>>, hash: Key -> nat, x: Item<T>)
    requires Keyed(s, m, hash) && x in s
    ensures Keyed(s - {x}, m - {x.key}, hash)
  {
  }

  ghost function CountSum<T>(bks: seq<Bucket<T>>): nat {
    if bks == [] then 0 else CountSum(bks[..|bks| - 1]) + bks[|bks| - 1].count
  }

  lemma {:induction false} CountsAgree<T>(chains: seq<seq<Item<T>>>, bks: seq<Bucket<T>>)
    requires |chains| == |bks| && forall b :: 0 <= b < |bks| ==> bks[b].count == |chains[b]|
    ensures CountSum(bks) == Total(chains)
  {
    if bks != [] { CountsAgree(chains[..|chains| - 1], bks[..|bks| - 1]); }
  }

  /** The walk of HASH_FIND_IN_BKT along the chain c. */
  method search<T>(first: Item?<T>, ghost c: seq<Item<T>>, key: Key, hashval: nat) returns (out: Item?<T>)
    requires Linked(c) && first == First(c)
    ensures out != null ==> out in c && out.key == key && out.hashv == hashval
    ensures out == null ==> forall x :: x in c ==> !(x.key == key && x.hashv == hashval)
  {
    ghost var i := 0;
    out := first;
    while out != null
      invariant i <= |c| && out == if i < |c| then c[i] else null
      invariant forall j :: 0 <= j < i ==> !(c[j].key == key && c[j].hashv == hashval)
      decreases |c| - i
    {
      if out.hashv == hashval && out.key == key {
        break;
      }
      out := out.hhNext;
      i := i + 1;
    }
  }

  lemma AppendDistinct<T>(s: seq<Item<T>>, x: Item<T>)
    requires Distinct(s) && x !in s
    ensures Distinct(s + [x])
  {
  }

  lemma LastApart<T>(s: seq<Item<T>>)
    requires s != [] && Distinct(s)
    ensures forall i :: 0 <= i < |s| - 1 ==> s[i] != s[|s| - 1]
  {
  }

  /** The links of HASH_APPEND_LIST. */
  method append<T>(ghost s: seq<Item<T>>, tail: Item<T>, x: Item<T>)
    requires s != [] && Distinct(s) && Listed(s) && tail == Last(s) && x !in s
    modifies x`next, x`prev, tail`next
    ensures Listed(s + [x])
  {
    hide Distinct;
    LastApart(s);
    ghost var n, t := |s| - 1, s + [x];
    x.next := null;
    x.prev := tail;
    tail.next := x;
    forall i | 0 <= i < |t| ensures t[i].prev == Before(t, i) && t[i].next == After(t, i) {
      if i < n {
        assert t[i] == s[i] && t[i + 1] == s[i + 1];
      }
    }
  }

  /** A head pointer and, while it is not null, the UT_hash_table behind it. */
  class Table<T> {
    const hash: Key -> nat
    var head: Item?<T>
    var tail: Item?<T>
    var buckets: seq<Bucket<T>>
    var numBuckets: nat
    var log2NumBuckets: nat
    var numItems: nat
    var idealChainMaxlen: nat
    var nonidealItems: nat
    var ineffExpands: nat
    var noexpand: bool

    ghost var items: seq<Item<T>>           // in insertion order
    ghost var chains: seq<seq<Item<T>>>     // one for each bucket
    ghost var contents: map<Key, Item<T>>   // the plain map the table stands for

    /** Everything HASH_FSCK walks, for the items s and the bucket array apart from each other. */
    ghost predicate AppOrder()
      reads this`head, this`tail, this`items, items`prev, items`next
    {
      items != [] && Distinct(items) && Listed(items) && head == items[0] && tail == Last(items)
    }

    ghost predicate InBuckets(s: set<Item<T>>)
      reads this`buckets, this`numBuckets, this`log2NumBuckets, this`chains, s`hashv, s`hhPrev, s`hhNext
    {
      |buckets| == numBuckets == Pow2(log2NumBuckets) && Holds(s, chains, buckets)
    }

    ghost predicate Valid()
      reads this, items
    {
      if head == null then items == [] && contents == map[]
      else
        AppOrder() && InBuckets(Elements(items)) && Keyed(Elements(items), contents, hash) &&
        numItems == |items| == Total(chains)
    }

    constructor (hash: Key -> nat)
      ensures Valid() && items == [] && this.hash == hash
    {
      this.hash := hash;
      head, tail, buckets := null, null, [];
      numBuckets, log2NumBuckets, numItems := 0, 0, 0;
      idealChainMaxlen, nonidealItems, ineffExpands, noexpand := 0, 0, 0, false;
      items, chains, contents := [], [], map[];
    }

    // ---- HASH_FIND

    /** HASH_FIND: the element that the plain map has under the key. */
    method find(key: Key) returns (out: Item?<T>)
      requires Valid()
      ensures out == if key in contents then contents[key] else null
    {
      out := null;
      if head != null {
        var hashval := hash(key);
        HomeInRange(hashval, log2NumBuckets);
        out := findInBkt(Home(hashval, numBuckets), key, hashval);
      }
    }

    /** HASH_FIND_IN_BKT. */
    method findInBkt(b: nat, key: Key, hashval: nat) returns (out: Item?<T>)
      requires Valid() && head != null && b < numBuckets
      ensures out != null ==> out in chains[b] && out.key == key && out.hashv == hashval
      ensures out == null ==> forall x :: x in chains[b] ==> !(x.key == key && x.hashv == hashval)
    {
      assert Chained(chains[b], buckets[b]);
      out := search(buckets[b].hhHead, chains[b], key, hashval);
    }

    // ---- HASH_DELETE

    /** HASH_DELETE_HH. */
    method delete(x: Item<T>)
      requires Valid() && x in items
      modifies this, items`prev, items`next, items`hhPrev, items`hhNext
      ensures Valid() && items == old(Without(items, IndexOf(items, x)))
      ensures contents == old(contents - {x.key})
      ensures |items| > 0 ==> SameMults(old(buckets), buckets) && unchanged(`numBuckets, `log2NumBuckets,
                `idealChainMaxlen, `nonidealItems, `ineffExpands, `noexpand)
    {
      hide InBuckets, Keyed, AppOrder, Distinct, Without, IndexOf, Elements, Total, SameMults;
      ghost var k, s, m := IndexOf(items, x), Elements(items), contents;
      assert AppOrder() && InBuckets(s) && Keyed(s, m, hash) && numItems == |items| == Total(chains);
      OnlyOne(k);
      Removed(items, k, s);
      KeyedRemove(s, m, hash, x);
      if x.prev == null && x.next == null {
        head := null;
        items, contents := [], m - {x.key};
        EmptiedKeyed(s - {x}, contents, hash);
      } else {
        remove(x, k, s);
      }
    }

    /** HASH_DELETE_HH when other elements stay. */
    method remove(x: Item<T>, ghost k: nat, ghost s: set<Item<T>>)
      requires AppOrder() && k < |items| && items[k] == x && |items| > 1 && s == Elements(items) && InBuckets(s)
      requires Keyed(s, contents, hash) && numItems == |items| == Total(chains)
      modifies this`head, this`tail, this`items, this`buckets, this`chains, this`numItems, this`contents,
               s`prev, s`next, s`hhPrev, s`hhNext
      ensures AppOrder() && items == Without(old(items), k) && head != null
      ensures InBuckets(Elements(items)) && Keyed(Elements(items), contents, hash)
      ensures numItems == |items| == Total(chains)
      ensures contents == old(contents) - {x.key} && SameMults(old(buckets), buckets)
    {
      hide InBuckets, Keyed, AppOrder, Distinct, Without, Elements, Total, SameMults;
      OnlyOne(k);
      Removed(items, k, s);
      KeyedRemove(s, contents, hash, x);
      detach(x, k, s);
      takeOut(x, s);
      numItems := numItems - 1;
      contents := contents - {x.key};
    }

    /** The relinking of HASH_DELETE_HH in insertion order. */
    method detach(x: Item<T>, ghost k: nat, ghost s: set<Item<T>>)
      requires AppOrder() && k < |items| && items[k] == x && |items| > 1 && s == Elements(items)
      modifies this`head, this`tail, this`items, s`prev, s`next
      ensures AppOrder() && items == Without(old(items), k) && head != null
    {
      hide Listed, Distinct, Without, Elements;
      OnlyOne(k);
      head, tail := unlist(x, head, tail, items, k);
      items := Without(items, k);
    }

    /** A list whose item has no neighbour has no other item. */
    lemma OnlyOne(k: nat)
      requires AppOrder() && k < |items|
      ensures items[k].prev == null && items[k].next == null <==> |items| == 1
      ensures Opt(items[k].prev) <= Elements(items) && Opt(items[k].next) <= Elements(items)
      ensures Distinct(items)
    {
    }

    /** The end of HASH_DELETE_HH: x leaves its bucket. */
    method takeOut(x: Item<T>, ghost s: set<Item<T>>)
      requires InBuckets(s) && x in s
      modifies this`buckets, this`chains, s`hhPrev, s`hhNext
      ensures InBuckets(s - {x}) && Total(chains) == old(Total(chains)) - 1
      ensures SameMults(old(buckets), buckets)
    {
      hide Holds, Total, Home, SameMults;
      Unpack(s, chains, buckets);
      HomeInRange(x.hashv, log2NumBuckets);
      var b := Home(x.hashv, numBuckets);
      buckets, chains := extract(x, b, buckets, s, chains);
      SameLength(s - {x}, chains, buckets);
    }

    // ---- HASH_FSCK

    /** The facts of HASH_FSCK that need counting: the counts of the buckets add up to num_items, and
        so do the chains and the insertion order. */
    lemma Counts()
      requires Valid() && head != null
      ensures CountSum(buckets) == numItems == |items| == Total(chains)
    {
      assert forall b :: 0 <= b < |chains| ==> Chained(chains[b], buckets[b]);
      CountsAgree(chains, buckets);
    }

    // ---- HASH_ADD

    /** HASH_ADD_KEYPTR. The caller sees to it that no element has the key yet. */
    method add(x: Item<T>, key: Key)
      requires Valid() && x !in items && key !in contents
      modifies this, x, items`next, items`hhPrev, items`hhNext
      ensures Valid() && items == old(items) + [x] && contents == old(contents)[key := x]
      ensures x.key == key
      ensures numBuckets == if old(head) == null then 32
                            else if old(Overfull(hash(key))) then 2 * old(numBuckets) else old(numBuckets)
      ensures old(head) != null && old(Overfull(hash(key))) ==>
                Grown(old(log2NumBuckets), old(ineffExpands), old(noexpand))
      ensures old(head) != null && !old(Overfull(hash(key))) ==>
                SameMults(old(buckets), buckets) && unchanged(`log2NumBuckets, `idealChainMaxlen, `nonidealItems,
                  `ineffExpands, `noexpand)
    {
      hide InBuckets, Keyed, AppOrder, Overfull, Grown, SameMults;
      ghost var s := Elements(items);
      assert x !in s;
      link(x, key, s);
      addToTable(x, s);
    }

    /** The first part of HASH_ADD_KEYPTR: the handle is filled in and joins the insertion order. */
    method link(x: Item<T>, key: Key, ghost s: set<Item<T>>)
      requires Valid() && x !in items && key !in contents && s == Elements(items) && x !in s
      modifies this, x`key, x`hashv, x`next, x`prev, items`next
      ensures items == old(items) + [x] && contents == old(contents)[key := x] && x.key == key
      ensures AppOrder() && Keyed(s + {x}, contents, hash) && InBuckets(s) && Elements(items) == s + {x}
      ensures head != null && numItems == |old(items)| == Total(chains)
      ensures x.hashv == hash(key)
      ensures old(head) != null ==> unchanged(`buckets, `log2NumBuckets, `idealChainMaxlen, `nonidealItems,
                `ineffExpands, `noexpand)
      ensures if old(head) == null then numBuckets == 32 && !Overfull(x.hashv)
              else numBuckets == old(numBuckets) && Overfull(x.hashv) == old(Overfull(hash(key)))
    {
      hide AppOrder, InBuckets, Keyed, Total, Elements;
      ghost var m := contents;
      Extended(items, x);
      x.hashv := hash(key);
      x.key := key;
      if head == null {
        EmptyKeyed(s, m, hash);
        x.next, x.prev := null, null;
        makeTable(x);
        head := x;
        items := [x];
        Alone(x);
      } else {
        appendList(x);
      }
      KeyedAdd(s, m, hash, x);
      contents := m[key := x];
    }

    lemma Alone(x: Item<T>)
      requires head == tail == x && items == [x] && x.next == x.prev == null
      ensures AppOrder()
    {
    }

    /** HASH_MAKE_TABLE. */
    method makeTable(x: Item<T>)
      modifies this`tail, this`buckets, this`numBuckets, this`log2NumBuckets, this`numItems, this`chains,
               this`idealChainMaxlen, this`nonidealItems, this`ineffExpands, this`noexpand
      ensures tail == x && numBuckets == 32 && log2NumBuckets == 5
      ensures numItems == idealChainMaxlen == nonidealItems == ineffExpands == 0 && !noexpand
      ensures InBuckets({}) && Total(chains) == 0
      ensures forall i :: 0 <= i < |buckets| ==> buckets[i].count == buckets[i].expandMult == 0
    {
      tail := x;
      numBuckets, log2NumBuckets := INITIAL_NUM_BUCKETS, INITIAL_NUM_BUCKETS_LOG2;
      buckets := seq(INITIAL_NUM_BUCKETS, i => Bucket(null, 0, 0));
      numItems, idealChainMaxlen, nonidealItems, ineffExpands, noexpand := 0, 0, 0, 0, false;
      chains := seq(INITIAL_NUM_BUCKETS, i => []);
      EmptyChains(chains, buckets, 0);
      assert Pow2(INITIAL_NUM_BUCKETS_LOG2) == INITIAL_NUM_BUCKETS;
    }

    /** HASH_APPEND_LIST. */
    method appendList(x: Item<T>)
      requires AppOrder() && x !in items
      modifies this`tail, this`items, x`next, x`prev, items`next
      ensures items == old(items) + [x] && AppOrder()
    {
      hide Distinct, Listed;
      AppendDistinct(items, x);
      append(items, tail, x);
      tail := x;
      items := items + [x];
    }

    /** An element with this hash value brings its bucket to the point where the table is expanded. */
    ghost predicate Overfull(hashv: nat)
      reads this`buckets, this`numBuckets, this`noexpand
    {
      numBuckets > 0 && Home(hashv, numBuckets) < |buckets| && !noexpand &&
      var b := buckets[Home(hashv, numBuckets)];
      b.count + 1 >= (b.expandMult + 1) * CAPACITY_THRESH
    }

    /** The test of HASH_ADD_TO_BKT in numbers: the chain reaches ten times one more than expand_mult. */
    lemma OverfullMeans(hashv: nat, s: set<Item<T>>)
      requires InBuckets(s)
      ensures |buckets| == numBuckets > 0 && |chains| == numBuckets
      ensures var b := hashv % numBuckets;
              Overfull(hashv) <==> !noexpand && |chains[b]| + 1 >= 10 * (buckets[b].expandMult + 1)
    {
      HomeInRange(hashv, log2NumBuckets);
      SameLength(s, chains, buckets);
      Unpack(s, chains, buckets);
      assert Chained(chains[hashv % numBuckets], buckets[hashv % numBuckets]);
    }

    /** What HASH_EXPAND_BUCKETS leaves behind, from the logarithm, the count of inefficient expansions and
        the flag that were there before. */
    ghost predicate Grown(log2: nat, ineff: nat, stopped: bool)
      reads this`numBuckets, this`log2NumBuckets, this`numItems, this`idealChainMaxlen, this`nonidealItems,
            this`ineffExpands, this`noexpand, this`buckets, this`chains
    {
      numBuckets > 0 && log2NumBuckets == log2 + 1 && idealChainMaxlen == CeilDiv(numItems, numBuckets) &&
      nonidealItems == Excess(chains, idealChainMaxlen) && |chains| == |buckets| &&
      ineffExpands == (if 2 * nonidealItems > numItems then ineff + 1 else 0) &&
      noexpand == (stopped || ineffExpands > 1) &&
      forall b :: 0 <= b < |buckets| ==> buckets[b].expandMult == ExpandMult(|chains[b]|, idealChainMaxlen)
    }

    /** The multipliers after HASH_EXPAND_BUCKETS, by the lengths of the chains. */
    lemma MultsGrown(log2: nat, ineff: nat, stopped: bool, b: nat)
      requires Grown(log2, ineff, stopped) && b < |buckets| && idealChainMaxlen > 0
      ensures var n := |chains[b]|;
              buckets[b].expandMult ==
              if n <= idealChainMaxlen then 0
              else if n - idealChainMaxlen <= CeilDiv(n, idealChainMaxlen) then n - idealChainMaxlen
              else CeilDiv(n, idealChainMaxlen)
    {
      hide CeilDiv, ExpandMult, Excess;
      ExpandMultValue(|chains[b]|, idealChainMaxlen);
    }

    /** HASH_ADD_TO_TABLE with HASH_ADD_TO_BKT. */
    method addToTable(x: Item<T>, ghost s: set<Item<T>>)
      requires InBuckets(s) && x !in s && numItems == Total(chains)
      modifies this`buckets, this`numBuckets, this`log2NumBuckets, this`numItems, this`chains,
               this`idealChainMaxlen, this`nonidealItems, this`ineffExpands, this`noexpand,
               x`hhPrev, x`hhNext, s`hhPrev, s`hhNext
      ensures InBuckets(s + {x}) && numItems == old(numItems) + 1 == Total(chains)
      ensures numBuckets == if old(Overfull(x.hashv)) then 2 * old(numBuckets) else old(numBuckets)
      ensures if old(Overfull(x.hashv)) then Grown(old(log2NumBuckets), old(ineffExpands), old(noexpand))
              else SameMults(old(buckets), buckets) && unchanged(`log2NumBuckets, `idealChainMaxlen,
                     `nonidealItems, `ineffExpands, `noexpand)
    {
      hide Holds, Total, Home, Grown, CeilDiv, Excess, Multiplied, SameMults;
      Unpack(s, chains, buckets);
      numItems := numItems + 1;
      HomeInRange(x.hashv, log2NumBuckets);
      var b := Home(x.hashv, numBuckets);
      ghost var was := buckets;
      buckets, chains := insert(x, b, buckets, s, chains);
      assert SameMults(was, buckets) by { SameMultsBut(was, buckets, b); }
      if buckets[b].count >= (buckets[b].expandMult + 1) * CAPACITY_THRESH && !noexpand {
        expandBuckets(s + {x});
      }
    }

    /** HASH_EXPAND_BUCKETS. */
    method expandBuckets(ghost s: set<Item<T>>)
      requires InBuckets(s) && numItems == Total(chains)
      modifies this`buckets, this`numBuckets, this`log2NumBuckets, this`chains,
               this`idealChainMaxlen, this`nonidealItems, this`ineffExpands, this`noexpand,
               s`hhPrev, s`hhNext
      ensures InBuckets(s) && numItems == Total(chains)
      ensures numBuckets == 2 * old(numBuckets) && log2NumBuckets == old(log2NumBuckets) + 1
      ensures idealChainMaxlen == CeilDiv(numItems, numBuckets)
      ensures nonidealItems == Excess(chains, idealChainMaxlen)
      ensures Multiplied(chains, buckets, idealChainMaxlen)
      ensures idealChainMaxlen > 0 ==> forall b :: 0 <= b < |buckets| ==>
                var n := |chains[b]|;
                buckets[b].expandMult ==
                if n <= idealChainMaxlen then 0
                else if n - idealChainMaxlen <= CeilDiv(n, idealChainMaxlen) then n - idealChainMaxlen
                else CeilDiv(n, idealChainMaxlen)
      ensures Grown(old(log2NumBuckets), old(ineffExpands), old(noexpand))
      ensures ineffExpands == if 2 * nonidealItems > numItems then old(ineffExpands) + 1 else 0
      ensures noexpand == (old(noexpand) || ineffExpands > 1)
    {
      hide Holds, Total, Excess, Multiplied, CeilDiv, ChainMaxlen, Pow2, BitAnd;
      assert Pow2(log2NumBuckets + 1) == numBuckets * 2 by { Doubled(log2NumBuckets); }
      var ideal := ChainMaxlen(numItems, numBuckets * 2, log2NumBuckets + 1);
      ExactCeiling(numItems, log2NumBuckets + 1);
      var newBuckets, nonideal;
      ghost var newChains;
      newBuckets, nonideal, newChains := rehashAll(buckets, numBuckets, ideal, s, chains, log2NumBuckets);
      assert |newChains| == |newBuckets| by { SameLength(s, newChains, newBuckets); }
      ineffExpands := if nonideal > numItems / 2 then ineffExpands + 1 else 0;
      if ineffExpands > 1 {
        noexpand := true;
      }
      idealChainMaxlen, nonidealItems := ideal, nonideal;
      numBuckets, log2NumBuckets := numBuckets * 2, log2NumBuckets + 1;
      buckets, chains := newBuckets, newChains;
      Multipliers(chains, buckets, ideal);
    }
  }
}
