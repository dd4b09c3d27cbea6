/** The tables of file descriptors and of connection buffers in src/mainloop.c. */
module Mainloop {
  import opened Bits

  const MAX_HANDLES: nat := 16
  const MAX_CONN: nat := 8

  datatype FdProto = Unknown | TunTap | ListenHttp | V3Udp | V3Tcp | Http

  datatype ConnProto = Unk | Be16Len | HttpText

  datatype FdInfo = FdInfo(fd: int, proto: FdProto, connnr: int)

  const FREE: FdInfo := FdInfo(-1, Unknown, -1)

  // ---- Who owns which connection

  /** Each connection in use belongs to exactly one occupied slot, and no slot points at a free one. */
  ghost predicate Owned(fds: seq<FdInfo>, conns: seq<ConnProto>) {
    (forall i :: 0 <= i < |fds| ==> -1 <= fds[i].connnr < |conns|) &&
    (forall i :: 0 <= i < |fds| && fds[i].fd == -1 ==> fds[i] == FREE) &&
    (forall i, j :: 0 <= i < j < |fds| && fds[i].connnr == fds[j].connnr ==> fds[i].connnr == -1) &&
    (forall i :: 0 <= i < |fds| && fds[i].connnr != -1 ==> conns[fds[i].connnr] != Unk) &&
    forall c :: 0 <= c < |conns| && conns[c] != Unk ==> HasOwner(fds, c)
  }

  ghost predicate HasOwner(fds: seq<FdInfo>, c: int) { exists i :: 0 <= i < |fds| && fds[i].connnr == c }

  lemma OwnerElsewhere(fds: seq<FdInfo>, i: nat, x: FdInfo, c: int)
    requires i < |fds| && fds[i].connnr != c && HasOwner(fds, c)
    ensures HasOwner(fds[i := x], c)
  {
    var k :| 0 <= k < |fds| && fds[k].connnr == c;
    assert fds[i := x][k].connnr == c;
  }

  /** A slot without a connection is filled or emptied. */
  lemma SlotChanges(fds: seq<FdInfo>, conns: seq<ConnProto>, i: nat, x: FdInfo)
    requires Owned(fds, conns) && i < |fds| && fds[i].connnr == -1 && x.connnr == -1
    requires x.fd == -1 ==> x == FREE
    ensures Owned(fds[i := x], conns)
  {
    hide HasOwner;
    forall c | 0 <= c < |conns| && conns[c] != Unk ensures HasOwner(fds[i := x], c) {
      OwnerElsewhere(fds, i, x, c);
    }
  }

  /** A free connection goes to a slot that has none. */
  lemma Attached(fds: seq<FdInfo>, conns: seq<ConnProto>, i: nat, c: nat, p: ConnProto)
    requires Owned(fds, conns) && i < |fds| && fds[i].connnr == -1 && fds[i].fd != -1
    requires c < |conns| && conns[c] == Unk && p != Unk
    ensures Owned(fds[i := fds[i].(connnr := c)], conns[c := p])
  {
    hide HasOwner;
    var x := fds[i].(connnr := c);
    assert HasOwner(fds[i := x], c) by { IsOwner(fds[i := x], i); }
    var conns' := conns[c := p];
    forall d | 0 <= d < |conns| && conns'[d] != Unk ensures HasOwner(fds[i := x], d) {
      if d != c { OwnerElsewhere(fds, i, x, d); }
    }
  }

  lemma IsOwner(fds: seq<FdInfo>, i: nat)
    requires i < |fds|
    ensures HasOwner(fds, fds[i].connnr)
  {
  }

  /** A slot gives its connection back. */
  lemma Detached(fds: seq<FdInfo>, conns: seq<ConnProto>, i: nat)
    requires Owned(fds, conns) && i < |fds| && fds[i].connnr != -1
    ensures Owned(fds[i := fds[i].(connnr := -1)], conns[fds[i].connnr := Unk])
  {
    hide HasOwner;
    var x := fds[i].(connnr := -1);
    var conns' := conns[fds[i].connnr := Unk];
    forall d | 0 <= d < |conns| && conns'[d] != Unk ensures HasOwner(fds[i := x], d) {
      OwnerElsewhere(fds, i, x, d);
    }
  }

  // ---- Searching in a circle

  /** r is k steps from start, free, and none before it in the circle is. */
  ghost predicate FreeAfter(conns: seq<ConnProto>, start: nat, r: int, k: nat)
    requires |conns| > 0
  {
    Place(start, k, |conns|) == r && conns[r] == Unk &&
    forall j :: 0 <= j < k ==> conns[Place(start, j, |conns|)] != Unk
  }

  /** The first free place in the circle from start on. */
  ghost predicate FirstFree(conns: seq<ConnProto>, start: nat, r: int) {
    |conns| > 0 && exists k :: 0 <= k < |conns| && FreeAfter(conns, start, r, k)
  }

  /** The place k steps after start. */
  function Place(start: nat, k: nat, n: nat): (p: nat)
    requires n > 0
    ensures p < n
  {
    (start + k) % n
  }

  /** In n steps the search looks at every place. */
  lemma EveryPlace(start: nat, n: nat, p: nat)
    requires p < n && start < n
    ensures exists k :: 0 <= k < n && Place(start, k, n) == p
  {
    var k := if p >= start then p - start else p + n - start;
    assert Place(start, k, n) == p;
  }

  lemma NextPlace(start: nat, k: nat, n: nat)
    requires n > 0
    ensures (Place(start, k, n) + 1) % n == Place(start, k + 1, n)
  {
    OneFurther(start + k, n, (start + k) / n, (start + k) % n);
  }

  lemma OneFurther(s: nat, n: nat, q: nat, r: nat)
    requires r < n && s == n * q + r
    ensures (r + 1) % n == (s + 1) % n
  {
    if r + 1 < n {
      Remainder(s + 1, n, q, r + 1);
      Remainder(r + 1, n, 0, r + 1);
    } else {
      assert n * (q + 1) == n * q + n;
      Remainder(s + 1, n, q + 1, 0);
      Remainder(n, n, 1, 0);
    }
  }

  /** Slot i, free before, has the client as an HTTP socket and a connection for HTTP text that was free, and
      all else is unchanged. */
  ghost predicate Serves(fds: seq<FdInfo>, conns: seq<ConnProto>, fds': seq<FdInfo>, conns': seq<ConnProto>,
                         i: nat, client: int) {
    |fds| == |fds'| > i && fds[i] == FREE && 0 <= fds'[i].connnr < |conns| && conns[fds'[i].connnr] == Unk &&
    fds' == fds[i := FdInfo(client, Http, fds'[i].connnr)] && conns' == conns[fds'[i].connnr := HttpText]
  }

  ghost predicate Served(fds: seq<FdInfo>, conns: seq<ConnProto>, fds': seq<FdInfo>, conns': seq<ConnProto>,
                         client: int) {
    exists i :: 0 <= i < |fds| && Serves(fds, conns, fds', conns', i, client)
  }

  /** Connection c, free before, is for packets with a length of two bytes, and the others are unchanged. */
  ghost predicate Connects(conns: seq<ConnProto>, conns': seq<ConnProto>, c: int) {
    0 <= c < |conns| && conns[c] == Unk && conns' == conns[c := Be16Len]
  }

  /** The first slot with this fd, or the number of slots. */
  function First(fds: seq<FdInfo>, fd: int): (i: nat)
    ensures i <= |fds| && (i < |fds| ==> fds[i].fd == fd)
    ensures forall k :: 0 <= k < i ==> fds[k].fd != fd
  {
    if fds == [] || fds[0].fd == fd then 0 else First(fds[1..], fd) + 1
  }

  function Released(conns: seq<ConnProto>, c: int): seq<ConnProto>
    requires c < |conns|
  {
    if c < 0 then conns else conns[c := Unk]
  }

  class Tables {
    const fdlist: array<FdInfo>
    const connlist: array<ConnProto>
    var fdNext: nat
    var connNext: nat

    ghost predicate Sizes() { fdlist.Length == MAX_HANDLES && connlist.Length == MAX_CONN }


    ghost predicate Valid()
      reads this, fdlist, connlist
    {
      Sizes() && Owned(fdlist[..], connlist[..])
    }

    /** connlist_init and fdlist_zero. */
    constructor ()
      ensures Valid() && fresh(fdlist) && fresh(connlist) && fdlist.Length == 16 && connlist.Length == 8
      ensures forall i :: 0 <= i < MAX_HANDLES ==> fdlist[i] == FREE
      ensures forall c :: 0 <= c < MAX_CONN ==> connlist[c] == Unk
    {
      fdlist := new FdInfo[MAX_HANDLES](i => FREE);
      connlist := new ConnProto[MAX_CONN](c => Unk);
      fdNext, connNext := 0, 0;
    }

    /** connlist_alloc: -1 exactly when every connection is taken, else one that was free. */
    method connlistAlloc(proto: ConnProto) returns (r: int)
      requires Sizes() && proto != Unk
      modifies connlist, this`connNext
      ensures (r == -1) <==> forall c :: 0 <= c < MAX_CONN ==> old(connlist[c]) != Unk
      ensures r == -1 ==> connlist[..] == old(connlist[..])
      ensures r != -1 ==> 0 <= r < MAX_CONN && old(connlist[r]) == Unk && connlist[..] == old(connlist[..])[r := proto]
      ensures r != -1 ==> connNext == r + 1 && FirstFree(old(connlist[..]), old(connNext) % MAX_CONN, r)
    {
      var start := connNext % MAX_CONN;
      var conn, count := start, MAX_CONN;
      while count > 0
        invariant 0 <= count <= MAX_CONN && conn == Place(start, MAX_CONN - count, MAX_CONN)
        invariant connlist[..] == old(connlist[..])
        invariant forall k :: 0 <= k < MAX_CONN - count ==> connlist[Place(start, k, MAX_CONN)] != Unk
      {
        if connlist[conn] == Unk {
          assert FreeAfter(connlist[..], start, conn, MAX_CONN - count);
          connlist[conn] := proto;
          connNext := conn + 1;
          return conn;
        }
        NextPlace(start, MAX_CONN - count, MAX_CONN);
        conn := (conn + 1) % MAX_CONN;
        count := count - 1;
      }
      forall c | 0 <= c < MAX_CONN ensures connlist[c] != Unk {
        EveryPlace(start, MAX_CONN, c);
      }
      return -1;
    }

    /** connlist_free. A number above MAX_CONN is ignored; MAX_CONN itself and negative ones are left to
        the caller, since the code would write outside the table. */
    method connlistFree(connnr: int)
      requires Sizes() && 0 <= connnr && connnr != MAX_CONN
      modifies connlist, this`connNext
      ensures connnr > MAX_CONN ==> connlist[..] == old(connlist[..]) && connNext == old(connNext)
      ensures connnr < MAX_CONN ==> connlist[..] == old(connlist[..])[connnr := Unk] && connNext == connnr
    {
      if connnr > MAX_CONN {
        return;
      }
      connlist[connnr] := Unk;
      connNext := connnr;
    }

    /** fdlist_allocslot: -1 exactly when every slot is taken. A TCP socket also gets a connection, which
        the code asserts to be there. */
    method fdlistAllocslot(fd: int, proto: FdProto) returns (r: int)
      requires Valid() && fd != -1
      requires proto == V3Tcp ==> Unk in connlist[..]
      modifies fdlist, connlist, this
      ensures Valid()
      ensures (r == -1) <==> forall i :: 0 <= i < MAX_HANDLES ==> old(fdlist[i].fd) != -1
      ensures r == -1 ==> fdlist[..] == old(fdlist[..])
      ensures r != -1 ==> 0 <= r < MAX_HANDLES && old(fdlist[r]) == FREE
      ensures r != -1 ==> fdlist[..] == old(fdlist[..])[r := FdInfo(fd, proto, fdlist[r].connnr)]
      ensures r != -1 ==> fdNext == r + 1 && (fdlist[r].connnr != -1 <==> proto == V3Tcp)
      ensures r != -1 && proto == V3Tcp ==> Connects(old(connlist[..]), connlist[..], fdlist[r].connnr)
      ensures proto != V3Tcp ==> connlist[..] == old(connlist[..])
    {
      hide Owned;
      var start := fdNext % MAX_HANDLES;
      var slot, count := start, MAX_HANDLES;
      while count > 0
        invariant 0 <= count <= MAX_HANDLES && slot == Place(start, MAX_HANDLES - count, MAX_HANDLES)
        invariant fdlist[..] == old(fdlist[..]) && connlist[..] == old(connlist[..])
        invariant forall k :: 0 <= k < MAX_HANDLES - count ==> fdlist[Place(start, k, MAX_HANDLES)].fd != -1
      {
        if fdlist[slot].fd == -1 {
          FreeSlot(fdlist[..], connlist[..], slot);
          takeSlot(slot, fd, proto);
          fdNext := slot + 1;
          return slot;
        }
        NextPlace(start, MAX_HANDLES - count, MAX_HANDLES);
        slot := (slot + 1) % MAX_HANDLES;
        count := count - 1;
      }
      forall i | 0 <= i < MAX_HANDLES ensures fdlist[i].fd != -1 {
        EveryPlace(start, MAX_HANDLES, i);
      }
      return -1;
    }

    /** The slot that the search has found is filled. */
    method takeSlot(slot: nat, fd: int, proto: FdProto)
      requires Valid() && slot < MAX_HANDLES && fdlist[slot].fd == -1 && fd != -1
      requires proto == V3Tcp ==> Unk in connlist[..]
      modifies fdlist, connlist, this`connNext
      ensures Valid()
      ensures fdlist[..] == old(fdlist[..])[slot := FdInfo(fd, proto, fdlist[slot].connnr)]
      ensures fdlist[slot].connnr != -1 <==> proto == V3Tcp
      ensures proto == V3Tcp ==> Connects(old(connlist[..]), connlist[..], fdlist[slot].connnr)
      ensures proto != V3Tcp ==> connlist[..] == old(connlist[..])
    {
      FreeSlot(fdlist[..], connlist[..], slot);
      hide Owned;
      SlotChanges(fdlist[..], connlist[..], slot, FdInfo(fd, proto, -1));
      fdlist[slot] := FdInfo(fd, proto, -1);
      assert fdlist[..] == old(fdlist[..])[slot := FdInfo(fd, proto, -1)];
      if proto == V3Tcp {
        ghost var fds, conns := fdlist[..], connlist[..];
        var connnr := connlistAlloc(Be16Len);
        assert connnr != -1 by {
          var c :| 0 <= c < MAX_CONN && conns[c] == Unk;
          assert connlist[c] == conns[c] || connnr != -1;
        }
        Attached(fds, conns, slot, connnr, Be16Len);
        fdlist[slot] := fdlist[slot].(connnr := connnr);
        assert fdlist[..] == fds[slot := fds[slot].(connnr := connnr)];
      }
    }

    /** fdlist_freefd: the first slot with this fd and its connection are free again. */
    method fdlistFreefd(fd: int)
      requires Valid()
      modifies fdlist, connlist, this
      ensures Valid()
      ensures var i := First(old(fdlist[..]), fd);
              if fd == -1 || i == MAX_HANDLES then fdlist[..] == old(fdlist[..]) && connlist[..] == old(connlist[..])
              else fdlist[..] == old(fdlist[..])[i := FREE] &&
                   connlist[..] == Released(old(connlist[..]), old(fdlist[..])[i].connnr) && fdNext == i
    {
      hide Owned;
      var slot := 0;
      if fd == -1 {
        return;
      }
      while slot < MAX_HANDLES
        invariant 0 <= slot <= MAX_HANDLES
        invariant fdlist[..] == old(fdlist[..]) && connlist[..] == old(connlist[..])
        invariant forall k :: 0 <= k < slot ==> fdlist[k].fd != fd
      {
        if fdlist[slot].fd != fd {
          slot := slot + 1;
          continue;
        }
        emptySlot(slot);
        fdNext := slot;
        return;
      }
    }

    method emptySlot(slot: nat)
      requires Valid() && slot < MAX_HANDLES
      modifies fdlist, connlist, this`connNext
      ensures Valid() && fdlist[..] == old(fdlist[..])[slot := FREE]
      ensures connlist[..] == Released(old(connlist[..]), old(fdlist[..])[slot].connnr)
    {
      ConnInRange(fdlist[..], connlist[..], slot);
      hide Owned;
      if fdlist[slot].connnr != -1 {
        Detached(fdlist[..], connlist[..], slot);
        connlistFree(fdlist[slot].connnr);
        fdlist[slot] := fdlist[slot].(connnr := -1);
        assert fdlist[..] == old(fdlist[..][slot := fdlist[slot].(connnr := -1)]);
      }
      ghost var fds := fdlist[..];
      SlotChanges(fds, connlist[..], slot, FREE);
      fdlist[slot] := fdlist[slot].(fd := -1);
      fdlist[slot] := fdlist[slot].(proto := Unknown);
      assert fdlist[..] == fds[slot := FREE];
    }

    /** A client of the listening socket, -1 when accept failed: it gets a slot and a connection, or else
        both tables stay as they were. */
    method acceptHttp(client: int) returns (served: bool)
      requires Valid() && forall i :: 0 <= i < MAX_HANDLES ==> client == -1 || fdlist[i].fd != client
      modifies fdlist, connlist, this
      ensures Valid()
      ensures served <==> client != -1 && (exists i :: 0 <= i < MAX_HANDLES && old(fdlist[i].fd) == -1) &&
                          Unk in old(connlist[..])
      ensures !served ==> fdlist[..] == old(fdlist[..]) && connlist[..] == old(connlist[..])
      ensures served ==> Served(old(fdlist[..]), old(connlist[..]), fdlist[..], connlist[..], client)
    {
      hide Owned;
      if client == -1 {
        return false;
      }
      var slotnr := fdlistAllocslot(client, Http);
      if slotnr < 0 {
        return false;
      }
      ghost var fds := fdlist[..];
      var connnr := serveClient(slotnr);
      if connnr < 0 {
        fdlistFreefd(client);
        assert First(fds, client) == slotnr;
        assert fdlist[..] == old(fdlist[..]);
        return false;
      }
      assert Serves(old(fdlist[..]), old(connlist[..]), fdlist[..], connlist[..], slotnr, client);
      served := true;
    }

    /** A connection for the client in the slot. */
    method serveClient(slotnr: nat) returns (connnr: int)
      requires Valid() && slotnr < MAX_HANDLES && fdlist[slotnr].fd != -1 && fdlist[slotnr].connnr == -1
      modifies fdlist, connlist, this`connNext
      ensures Valid() && connnr >= -1 && (connnr == -1 <==> Unk !in old(connlist[..]))
      ensures connnr == -1 ==> fdlist[..] == old(fdlist[..]) && connlist[..] == old(connlist[..])
      ensures connnr != -1 ==> fdlist[..] == old(fdlist[..])[slotnr := old(fdlist[slotnr]).(connnr := connnr)]
      ensures connnr != -1 ==> connnr < MAX_CONN && old(connlist[..])[connnr] == Unk
      ensures connnr != -1 ==> connlist[..] == old(connlist[..])[connnr := HttpText]
    {
      hide Owned;
      ghost var fds, conns := fdlist[..], connlist[..];
      connnr := connlistAlloc(HttpText);
      if connnr < 0 {
        return;
      }
      assert Unk in conns by { assert conns[connnr] == Unk; }
      Attached(fds, conns, slotnr, connnr, HttpText);
      fdlist[slotnr] := fdlist[slotnr].(connnr := connnr);
      assert fdlist[..] == fds[slotnr := fds[slotnr].(connnr := connnr)];
    }
  }

  lemma FreeSlot(fds: seq<FdInfo>, conns: seq<ConnProto>, i: nat)
    requires Owned(fds, conns) && i < |fds| && fds[i].fd == -1
    ensures fds[i] == FREE
  {
  }

  lemma ConnInRange(fds: seq<FdInfo>, conns: seq<ConnProto>, i: nat)
    requires Owned(fds, conns) && i < |fds|
    ensures -1 <= fds[i].connnr < |conns|
  {
  }
}
