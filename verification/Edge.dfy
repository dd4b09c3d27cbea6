/** The edge in src/edge_utils.c: the fields of its run-time data that registration uses, the handlers
    that update them, and the choice of supernodes to ping. Each handler is a step of EdgeSpec. */
module Edge {
  import opened EdgeRuns
  import opened EdgeSpec

  class RuntimeData {
    const conf: Config
    var supernodes: seq<Sn>
    var currSn: Sn
    var lastCookie: map<Sn, nat>
    var known: set<Sn>
    var snWait: nat
    var supAttempts: nat
    var lastSup: nat
    var closeSocketCounter: nat
    var lastRegisterReq: int
    var lastSweep: int
    var macSet: bool
    ghost var log: seq<Deed>

    ghost function Abs(): State
      reads this
    {
      State(supernodes, currSn, lastCookie, known, snWait, supAttempts, lastSup, closeSocketCounter,
            lastRegisterReq, lastSweep, macSet, log)
    }

    ghost predicate Valid()
      reads this
    {
      Inv(conf, Abs())
    }

    /** edge_init, for a list with at least one supernode. */
    constructor (c: Config, list: seq<Sn>)
      requires list != [] && Distinct(list)
      ensures conf == c && Initial(c, Abs()) && supernodes == list && Valid()
    {
      conf := c;
      supernodes, currSn, lastCookie, known := list, list[0], map[], {};
      snWait, supAttempts, lastSup, closeSocketCounter := 0, if c.connectTcp then 1 else ATTEMPTS, 0, 0;
      lastRegisterReq, lastSweep, macSet := 0, 0, false;
      log := [];
      new;
      InitialHolds(c, Abs());
    }

    /** reset_sup_attempts. */
    method resetSupAttempts()
      modifies this`supAttempts
      ensures supAttempts == Reset(conf) == if conf.connectTcp then 1 else 3
    {
      if conf.connectTcp {
        supAttempts := 1;
      } else {
        supAttempts := ATTEMPTS;
      }
    }

    /** send_register_super, with its random cookie. */
    method sendRegisterSuper(cookie: nat)
      modifies this`lastCookie, this`log
      ensures Abs() == Registering(old(Abs()), cookie)
    {
      lastCookie := lastCookie[currSn := cookie];
      log := log + [Sent(currSn, cookie)];
    }

    /** The part of update_supernode_reg that gives up on a supernode. The socket counter counts the times
        modulo its maximum when no peer outside the local network is known. */
    method giveUp(order: seq<Sn>, external: bool)
      requires Valid() && multiset(order) == multiset(supernodes)
      modifies this`supernodes, this`currSn, this`supAttempts, this`closeSocketCounter, this`log
      ensures Valid() && Abs() == GivingUp(conf, old(Abs()), order, external)
      ensures supernodes == order && currSn == supernodes[0] && supAttempts > 0
      ensures closeSocketCounter ==
              if conf.bindAddress && !external then (old(closeSocketCounter) + 1) % 15
              else old(closeSocketCounter)
      ensures Losses(log) == old(Losses(log)) + 1
    {
      hide Inv, Losses;
      ghost var s := Abs();
      InRange(conf, s);
      SameMembers(order, supernodes);
      GivingUpKeeps(conf, s, order, external);
      LossesGrow(log, GaveUp(currSn));
      log := log + [GaveUp(currSn)];
      supernodes := order;
      currSn := supernodes[0];
      resetSupAttempts();
      if conf.bindAddress {
        if !external {
          closeSocketCounter := closeSocketCounter + 1;
          if closeSocketCounter >= CLOSE_SOCKET_COUNTER_MAX {
            closeSocketCounter := 0;
          }
        }
      }
    }

    /** The part that counts an attempt. */
    method attempt(order: seq<Sn>, external: bool)
      requires Valid() && multiset(order) == multiset(supernodes)
      modifies this`supernodes, this`currSn, this`supAttempts, this`closeSocketCounter, this`log
      ensures order != [] && Valid() && Abs() == Attempted(conf, old(Abs()), order, external)
      ensures old(supAttempts) > 0 ==> supAttempts == old(supAttempts) - 1 && currSn == old(currSn)
    {
      hide Inv, GivingUp;
      SameMembers(order, supernodes);
      InRange(conf, Abs());
      AttemptedKeeps(conf, Abs(), order, external);
      if supAttempts == 0 {
        giveUp(order, external);
      } else {
        supAttempts := supAttempts - 1;
      }
    }

    /** update_supernode_reg. The order is what sorting by selection criterion makes of the list, external
        says whether a peer outside the local network is known, resolves whether the name of the
        supernode does. A round that is not due changes nothing. One that is leaves a quarter of the
        interval to the next ordinary round. */
    method updateSupernodeReg(now: nat, order: seq<Sn>, random: nat, cookie: nat, external: bool, resolves: bool)
      requires Valid() && multiset(order) == multiset(supernodes)
      requires snWait == 2 ==> conf.registerInterval >= 2
      modifies this
      ensures Valid() && Abs() == Step(conf, old(Abs()),
                Update(now, order, Offset(conf, old(snWait), random), cookie, external, resolves))
      ensures !Due(conf, old(Abs()), now) ==> Abs() == old(Abs())
      ensures Due(conf, old(Abs()), now) ==> snWait == 1
      ensures old(snWait) == 0 ==> (snWait == 1 <==> now >= old(lastRegisterReq) + conf.registerInterval)
      ensures Due(conf, old(Abs()), now) ==>
              supAttempts == if old(supAttempts) == 0 then Reset(conf) else old(supAttempts) - 1
      ensures Due(conf, old(Abs()), now) ==> currSn == if old(supAttempts) == 0 then supernodes[0] else old(currSn)
      ensures Due(conf, old(Abs()), now) && resolves ==> AskedLast(log, currSn, cookie)
      ensures !resolves ==> lastCookie == old(lastCookie)
      ensures Due(conf, old(Abs()), now) ==>
              lastRegisterReq == now - if old(snWait) == 2 then random % (conf.registerInterval * 3 / 4) else 0
      ensures Due(conf, old(Abs()), now) ==>
              lastRegisterReq <= now <= lastRegisterReq + conf.registerInterval - conf.registerInterval / 4
    {
      hide Inv, GivingUp, Registering, AskedLast, Updated, Attempted;
      ghost var s, e := Abs(), Update(now, order, Offset(conf, snWait, random), cookie, external, resolves);
      SameMembers(order, supernodes);
      InRange(conf, s);
      UpdatedForm(conf, s, e);
      var off := 0;
      if (snWait != 0 && now > lastRegisterReq + conf.registerInterval / 10) || snWait == 2 {
      } else if now < lastRegisterReq + conf.registerInterval {
        return;
      }
      if snWait == 2 {
        off := random % (conf.registerInterval * 3 / 4);
      }
      attempt(order, external);
      if resolves {
        sendRegisterSuper(cookie);
      }
      snWait := 1;
      lastRegisterReq := now - off;
      assert off == e.off;
      assert Abs() == Updated(conf, s, e);
      StepKeeps(conf, s, e);
      RoundEffect(conf, s, e);
    }

    /** The part of sort_supernodes that leaves the current supernode for the first in the list. */
    method switchToFirst(now: nat, cookie: nat)
      requires supernodes != []
      modifies this`currSn, this`supAttempts, this`lastCookie, this`log, this`lastRegisterReq, this`snWait
      ensures Abs() == Registering(old(Abs()).(curr := supernodes[0], attempts := Reset(conf)), cookie)
                       .(wait := 1, lastReq := now)
    {
      currSn := supernodes[0];
      resetSupAttempts();
      sendRegisterSuper(cookie);
      lastRegisterReq := now;
      snWait := 1;
    }

    /** sort_supernodes. When it is time for a sweep the first entry becomes current; if that is another
        one, it is registered with. The order only changes while nothing is awaited. */
    method sortSupernodes(now: nat, order: seq<Sn>, cookie: nat)
      requires Valid() && multiset(order) == multiset(supernodes)
      modifies this
      ensures Valid() && Abs() == Step(conf, old(Abs()), Sort(now, order, cookie))
      ensures now - old(lastSweep) <= 30 ==> Abs() == old(Abs())
      ensures now - old(lastSweep) > 30 ==> currSn == supernodes[0] && lastSweep == now
      ensures now - old(lastSweep) > 30 && old(snWait) == 0 ==> supernodes == order
      ensures old(snWait) != 0 ==> supernodes == old(supernodes)
      ensures currSn == old(currSn) ==> supAttempts == old(supAttempts) && snWait == old(snWait) && log == old(log)
      ensures currSn != old(currSn) ==> supAttempts == Reset(conf) && snWait == 1 && AskedLast(log, currSn, cookie)
      ensures currSn != old(currSn) ==> lastRegisterReq == now
    {
      hide Inv, Registering, AskedLast;
      ghost var s, e := Abs(), Sort(now, order, cookie);
      SameMembers(order, supernodes);
      InRange(conf, s);
      StepKeeps(conf, s, e);
      SweepEffect(conf, s, e);
      if now - lastSweep <= SWEEP_TIME {
        assert Abs() == Sorted(conf, s, e);
        return;
      }
      if snWait == 0 {
        supernodes := order;
      }
      if currSn != supernodes[0] {
        switchToFirst(now, cookie);
      }
      lastSweep := now;
      assert Abs() == Sorted(conf, s, e);
    }

    /** The current supernode is deleted from the list and added again once its MAC address is known. */
    method rehash()
      requires currSn in supernodes
      modifies this`supernodes, this`known
      ensures supernodes == Entered(old(supernodes), Listing(currSn, currSn !in old(known)))
      ensures known == old(known) + {currSn}
      ensures multiset(supernodes) == multiset(old(supernodes))
      ensures currSn !in old(known) ==> supernodes[|supernodes| - 1] == currSn
    {
      hide Without;
      if currSn !in known {
        supernodes := Without(supernodes, currSn);
        known := known + {currSn};
        supernodes := supernodes + [currSn];
      }
    }

    /** add_sn_to_list_by_mac_or_sock: no entry is lost or doubled; one that gets another MAC address and
        one that is new come last. */
    method addSn(l: Listing)
      requires Distinct(supernodes)
      modifies this`supernodes, this`known
      ensures supernodes == Entered(old(supernodes), l) && known == old(known) + Named([l])
      ensures Distinct(supernodes) && forall x :: x in supernodes <==> x in old(supernodes) || x == l.sn
      ensures l.sn !in old(supernodes) || l.newMac ==> supernodes[|supernodes| - 1] == l.sn
    {
      hide Without, Distinct;
      EnteredKeeps(supernodes, l);
      if l.sn in supernodes {
        if l.newMac {
          supernodes := Without(supernodes, l.sn);
          known := known + {l.sn};
          supernodes := supernodes + [l.sn];
        }
      } else {
        if l.newMac {
          known := known + {l.sn};
        }
        supernodes := supernodes + [l.sn];
      }
    }

    /** The loop over the payload. */
    method addPayload(payload: seq<Listing>)
      requires Distinct(supernodes)
      modifies this`supernodes, this`known
      ensures supernodes == EnteredAll(old(supernodes), payload) && known == old(known) + Named(payload)
      ensures Distinct(supernodes)
      ensures forall x :: x in supernodes <==> x in old(supernodes) || exists l :: l in payload && l.sn == x
    {
      hide Entered, Distinct;
      var i := 0;
      while i < |payload|
        invariant 0 <= i <= |payload| && Distinct(supernodes)
        invariant supernodes == EnteredAll(old(supernodes), payload[..i])
        invariant known == old(known) + Named(payload[..i])
        invariant forall x :: x in supernodes <==> x in old(supernodes) || exists l :: l in payload[..i] && l.sn == x
      {
        addSn(payload[i]);
        assert payload[..i + 1] == payload[..i] + [payload[i]];
        assert payload[..i + 1][..i] == payload[..i];
        i := i + 1;
      }
      assert payload[..i] == payload;
    }

    /** What an acknowledgement that passes all tests does. */
    method takeAck(now: nat, cookie: nat, payload: seq<Listing>)
      requires currSn in supernodes && Distinct(supernodes)
      modifies this`supernodes, this`known, this`log, this`snWait, this`supAttempts, this`lastSup
      ensures supernodes == EnteredAll(Entered(old(supernodes), Listing(currSn, currSn !in old(known))), payload)
      ensures known == old(known) + {currSn} + Named(payload)
      ensures log == old(log) + [Accepted(currSn, cookie, old(snWait), macSet)]
      ensures snWait == 0 && supAttempts == Reset(conf) && lastSup == if macSet then now else old(lastSup)
      ensures forall x :: x in supernodes <==> x in old(supernodes) || exists l :: l in payload && l.sn == x
    {
      hide Entered, EnteredAll, Named, Distinct;
      EnteredKeeps(supernodes, Listing(currSn, currSn !in known));
      rehash();
      log := log + [Accepted(currSn, cookie, snWait, macSet)];
      addPayload(payload);
      snWait := 0;
      resetSupAttempts();
      if macSet {
        lastSup := now;
      }
    }

    /** A REGISTER_SUPER_ACK. genuine says whether it passes the checks of time stamp, hash and
        authentication. It ends the waiting exactly when it is awaited, genuine and has the cookie last
        sent to the current supernode; otherwise nothing changes. */
    method registerSuperAck(now: nat, cookie: nat, genuine: bool, payload: seq<Listing>)
      requires Valid() && now > 0
      modifies this
      ensures Valid() && Abs() == Step(conf, old(Abs()), Ack(now, cookie, genuine, payload))
      ensures old(snWait) != 0 ==> (snWait == 0 <==> genuine && cookie == LastCookie(old(log), currSn))
      ensures old(snWait) == 0 || snWait != 0 ==> Abs() == old(Abs())
      ensures old(snWait) != 0 && snWait == 0 ==> supAttempts == Reset(conf) && (macSet ==> lastSup == now)
      ensures old(snWait) != 0 && snWait == 0 ==>
              forall x :: x in supernodes <==> x in old(supernodes) || exists l :: l in payload && l.sn == x
      ensures currSn == old(currSn) && (lastSup != old(lastSup) ==> macSet)
    {
      hide Inv, Entered, EnteredAll, Named, LastCookie, Acknowledged;
      ghost var s, e := Abs(), Ack(now, cookie, genuine, payload);
      InRange(conf, s);
      StepKeeps(conf, s, e);
      AckEffect(conf, s, e);
      if snWait == 0 || !genuine {
        return;
      }
      if cookie != (if currSn in lastCookie then lastCookie[currSn] else 0) {
        return;
      }
      takeAck(now, cookie, payload);
      assert Abs() == Acknowledged(conf, s, e);
    }

    /** A PONG: the supernode that sent it, when it is in the list. */
    method pong(l: Listing)
      requires Valid()
      modifies this
      ensures Distinct(supernodes) && multiset(supernodes) == multiset(old(supernodes))
      ensures Allowed(conf, old(Abs()), Listed(supernodes, known))
      ensures Valid() && Abs() == Step(conf, old(Abs()), Listed(supernodes, known))
    {
      hide Inv, Entered;
      ghost var s := Abs();
      InRange(conf, s);
      if l.sn in supernodes {
        addSn(l);
      }
      assert Allowed(conf, s, Listed(supernodes, known));
      StepKeeps(conf, s, Listed(supernodes, known));
    }

    /** A name that the resolver has resolved: an entry that is there loses its MAC address, another one is
        added. */
    method resolved(sn: Sn)
      requires Valid()
      modifies this
      ensures forall x :: x in supernodes <==> x in old(supernodes) || x == sn
      ensures sn in old(supernodes) ==> supernodes == old(supernodes) && sn !in known
      ensures Allowed(conf, old(Abs()), Listed(supernodes, known))
      ensures Valid() && Abs() == Step(conf, old(Abs()), Listed(supernodes, known))
    {
      hide Inv;
      ghost var s := Abs();
      InRange(conf, s);
      if sn in supernodes {
        known := known - {sn};
      } else {
        addSn(Listing(sn, false));
      }
      assert Allowed(conf, s, Listed(supernodes, known));
      StepKeeps(conf, s, Listed(supernodes, known));
    }

    /** A PACKET, up to whether it goes on to the TAP device: exactly when an acknowledgement was
        accepted since the device has its address. */
    method packet(now: nat, fromSupernode: bool) returns (delivered: bool)
      requires Valid() && now > 0
      modifies this
      ensures Valid() && Abs() == Step(conf, old(Abs()), Packet(now, fromSupernode))
      ensures (delivered <==> old(lastSup) != 0) && (delivered <==> HasRegistered(old(log)))
      ensures lastSup == if delivered && fromSupernode then now else old(lastSup)
    {
      hide Inv, HasRegistered;
      ghost var s := Abs();
      InRange(conf, s);
      StepKeeps(conf, s, Packet(now, fromSupernode));
      if lastSup == 0 {
        return false;
      }
      if fromSupernode {
        lastSup := now;
      }
      log := log + [Delivered];
      delivered := true;
    }

    /** A frame from the TAP device, up to whether it is sent on: under the same condition. */
    method readFromTap() returns (forwarded: bool)
      requires Valid()
      modifies this
      ensures Valid() && Abs() == Step(conf, old(Abs()), Frame)
      ensures (forwarded <==> old(lastSup) != 0) && (forwarded <==> HasRegistered(old(log)))
      ensures lastSup == old(lastSup)
    {
      hide Inv, HasRegistered;
      ghost var s := Abs();
      InRange(conf, s);
      StepKeeps(conf, s, Frame);
      if lastSup == 0 {
        return false;
      }
      log := log + [Forwarded];
      forwarded := true;
    }

    /** A RE_REGISTER_SUPER: with a shared secret any later round is due, otherwise nothing changes. */
    method reRegisterSuper()
      requires Valid()
      modifies this
      ensures Valid() && Abs() == Step(conf, old(Abs()), ReRegister)
      ensures snWait == if conf.sharedSecret then 2 else old(snWait)
      ensures conf.sharedSecret ==> forall now: nat :: Due(conf, Abs(), now)
    {
      hide Inv;
      ghost var s := Abs();
      InRange(conf, s);
      StepKeeps(conf, s, ReRegister);
      if !conf.sharedSecret {
        return;
      }
      snWait := 2;
    }

    /** A broken or oversized read on the TCP connection: the next round is due after a tenth of the
        interval. */
    method readError()
      requires Valid()
      modifies this
      ensures Valid() && Abs() == Step(conf, old(Abs()), ReadError)
      ensures forall now: nat :: now > lastRegisterReq + conf.registerInterval / 10 ==> Due(conf, Abs(), now)
      ensures snWait == 1
    {
      hide Inv;
      ghost var s := Abs();
      InRange(conf, s);
      StepKeeps(conf, s, ReadError);
      snWait := 1;
    }
  }

  lemma InRange(c: Config, s: State)
    requires Inv(c, s)
    ensures s.supernodes != [] && s.curr in s.supernodes && s.closeCounter < CLOSE_SOCKET_COUNTER_MAX
    ensures Distinct(s.supernodes) && CookieOf(s, s.curr) == LastCookie(s.log, s.curr)
    ensures s.lastSup != 0 <==> HasRegistered(s.log)
  {
  }

  lemma UpdatedForm(c: Config, s: State, e: Event)
    requires e.Update? && e.order != []
    ensures !Due(c, s, e.now) ==> Updated(c, s, e) == s
    ensures var t := Attempted(c, s, e.order, e.external); Due(c, s, e.now) ==>
              Updated(c, s, e) ==
              (if e.resolves then Registering(t, e.cookie) else t).(wait := 1, lastReq := e.now - e.off)
  {
  }

  /** A round that is due. */
  lemma RoundEffect(c: Config, s: State, e: Event)
    requires Inv(c, s) && e.Update? && Allowed(c, s, e) && Due(c, s, e.now)
    ensures var t := Step(c, s, e);
            t.wait == 1 && t.attempts == (if s.attempts == 0 then Reset(c) else s.attempts - 1) &&
            t.curr == (if s.attempts == 0 then t.supernodes[0] else s.curr) && t.lastReq == e.now - e.off &&
            (e.resolves ==> AskedLast(t.log, t.curr, e.cookie))
  {
    hide Inv, AskedLast;
    SameMembers(e.order, s.supernodes);
    InRange(c, s);
    var t := Attempted(c, s, e.order, e.external);
    AskedLastGrows(t.log, Sent(t.curr, e.cookie), t.curr, e.cookie);
  }

  /** A sweep. */
  lemma SweepEffect(c: Config, s: State, e: Event)
    requires Inv(c, s) && e.Sort? && Allowed(c, s, e)
    ensures var t := Step(c, s, e);
            t == Sorted(c, s, e) && (e.now as int - s.lastSweep > SWEEP_TIME ==> t.curr == t.supernodes[0]) &&
            (t.curr != s.curr ==> t.attempts == Reset(c) && t.wait == 1 && AskedLast(t.log, t.curr, e.cookie))
  {
    hide Inv, AskedLast;
    SameMembers(e.order, s.supernodes);
    InRange(c, s);
    var t := Sorted(c, s, e);
    AskedLastGrows(s.log, Sent(t.curr, e.cookie), t.curr, e.cookie);
  }

  /** An acknowledgement. */
  lemma AckEffect(c: Config, s: State, e: Event)
    requires Inv(c, s) && e.Ack? && Allowed(c, s, e)
    ensures Step(c, s, e) == Acknowledged(c, s, e) && (!Accepts(s, e) ==> Acknowledged(c, s, e) == s)
    ensures var list := Entered(s.supernodes, Listing(s.curr, s.curr !in s.known)); Accepts(s, e) ==>
              Acknowledged(c, s, e) ==
              s.(supernodes := EnteredAll(list, e.payload), known := s.known + {s.curr} + Named(e.payload),
                 wait := 0, attempts := Reset(c), lastSup := if s.macSet then e.now else s.lastSup,
                 log := s.log + [Accepted(s.curr, e.cookie, s.wait, s.macSet)])
  {
    hide Inv, Entered, EnteredAll, Named;
    InRange(c, s);
  }

  // ---- send_query_peer without a destination: which supernodes get a PING

  /** The round of pings over a list of n supernodes, with a budget of pings and a random number of
      supernodes left out between the first and the rest: as many as the budget and the list allow, no
      one twice, and always the first half of the budget from the top of the list. */
  method sendPings(n: nat, pings: nat, random: nat) returns (sent: seq<nat>)
    requires n >= pings ==> random <= n - pings
    ensures |sent| == if n < pings then n else pings
    ensures forall i, j :: 0 <= i < j < |sent| ==> sent[i] < sent[j] < n
    ensures forall i :: 0 <= i < n && i < pings / 2 ==> i < |sent| && sent[i] == i
    ensures forall i :: pings / 2 <= i < |sent| ==> sent[i] == i + if n < pings then 0 else random
  {
    var top, rest := pings / 2, (pings + 1) / 2;
    var skip: int := n - pings;
    skip := if skip < 0 then 0 else random;
    ghost var gap := skip;
    sent := [];
    var k := 0;
    while k < n
      invariant 0 <= k <= n && 0 <= top && 0 <= skip <= gap && 0 <= rest <= (pings + 1) / 2
      invariant |sent| + top + rest == pings && |sent| + gap - skip == k
      invariant top > 0 ==> skip == gap && rest == (pings + 1) / 2
      invariant skip > 0 ==> rest == (pings + 1) / 2
      invariant forall i :: 0 <= i < |sent| ==> sent[i] == if i < pings / 2 then i else i + gap
    {
      if top > 0 {
        top := top - 1;
      } else if skip > 0 {
        skip := skip - 1;
        k := k + 1;
        continue;
      } else if rest > 0 {
        rest := rest - 1;
      } else {
        break;
      }
      sent := sent + [k];
      k := k + 1;
    }
  }
}
