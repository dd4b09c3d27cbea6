/** How an edge registers with its supernodes (src/edge_utils.c and the start in apps/n3n-edge.c), as a
    state machine: what each call and each packet does, and what holds in every run. */
module EdgeSpec {

  /** A supernode, by its identity. */
  type Sn = nat

  /** N2N_EDGE_SUP_ATTEMPTS, N2N_CLOSE_SOCKET_COUNTER_MAX, SWEEP_TIME, BOOTSTRAP_TIMEOUT. */
  const ATTEMPTS: nat := 3
  const CLOSE_SOCKET_COUNTER_MAX: nat := 15
  const SWEEP_TIME: nat := 30
  const BOOTSTRAP_TIMEOUT: nat := 3

  /** autoAddress is the mode in which a supernode assigns the address. */
  datatype Config = Config(connectTcp: bool, registerInterval: nat, bindAddress: bool, sharedSecret: bool,
    autoAddress: bool)

  /** reset_sup_attempts. */
  function Reset(c: Config): nat { if c.connectTcp then 1 else ATTEMPTS }

  /** What the edge does that others can see, and the acknowledgements it accepts. */
  datatype Deed =
    | Sent(sn: Sn, cookie: nat)
    | Accepted(from: Sn, answer: nat, wait: nat, withMac: bool)
    | GaveUp(lost: Sn)
    | Delivered
    | Forwarded

  datatype State = State(
    supernodes: seq<Sn>,
    curr: Sn,
    cookies: map<Sn, nat>,
    known: set<Sn>,
    wait: nat,
    attempts: nat,
    lastSup: nat,
    closeCounter: nat,
    lastReq: int,
    lastSweep: int,
    macSet: bool,
    log: seq<Deed>)

  /** A supernode as add_sn_to_list_by_mac_or_sock meets it; newMac says that it comes with a MAC address
      that no entry has. */
  datatype Listing = Listing(sn: Sn, newMac: bool)

  /** A call, or a packet that arrives, with what the code draws from clock, random numbers, resolver and
      the sorting of the list. Listed is what a PONG or the resolver makes of the list and of the MAC
      addresses in it. */
  datatype Event =
    | Update(now: nat, order: seq<Sn>, off: nat, cookie: nat, external: bool, resolves: bool)
    | Sort(now: nat, order: seq<Sn>, cookie: nat)
    | Ack(now: nat, cookie: nat, genuine: bool, payload: seq<Listing>)
    | Listed(list: seq<Sn>, known: set<Sn>)
    | ReRegister
    | Packet(now: nat, fromSupernode: bool)
    | Frame
    | ReadError
    | FirstPong(order: seq<Sn>)
    | Ask(cookie: nat)
    | TryNext
    | Device
    | Ready(now: nat, order: seq<Sn>)

  // ---- The steps

  /** last_cookie, 0 in a fresh entry. */
  function CookieOf(s: State, sn: Sn): nat { if sn in s.cookies then s.cookies[sn] else 0 }

  /** send_register_super. */
  function Registering(s: State, cookie: nat): State {
    s.(cookies := s.cookies[s.curr := cookie], log := s.log + [Sent(s.curr, cookie)])
  }

  /** The round is due. */
  predicate Due(c: Config, s: State, now: nat) {
    (s.wait != 0 && now as int > s.lastReq + c.registerInterval / 10) || s.wait == 2 ||
    now as int >= s.lastReq + c.registerInterval
  }

  /** When a round is due: after the interval; while an answer is awaited also after a tenth of it; at once
      after a RE_REGISTER_SUPER. */
  lemma DueMeans(c: Config, s: State, now: nat)
    ensures s.wait == 0 ==> (Due(c, s, now) <==> now >= s.lastReq + c.registerInterval)
    ensures s.wait == 1 ==> (Due(c, s, now) <==> now > s.lastReq + c.registerInterval / 10 ||
                                                 now >= s.lastReq + c.registerInterval)
    ensures s.wait == 2 ==> Due(c, s, now)
  {
  }

  /** The offset that spreads the rounds after a RE_REGISTER_SUPER. */
  function Offset(c: Config, wait: nat, random: nat): nat
    requires wait == 2 ==> c.registerInterval >= 2
  {
    if wait == 2 then random % (c.registerInterval * 3 / 4) else 0
  }

  /** close_socket_counter after a supernode was given up. */
  function CloseCount(c: Config, s: State, external: bool): nat {
    if !c.bindAddress || external then s.closeCounter
    else if s.closeCounter + 1 >= CLOSE_SOCKET_COUNTER_MAX then 0
    else s.closeCounter + 1
  }

  function GivingUp(c: Config, s: State, order: seq<Sn>, external: bool): State
    requires order != []
  {
    s.(supernodes := order, curr := order[0], attempts := Reset(c), closeCounter := CloseCount(c, s, external),
       log := s.log + [GaveUp(s.curr)])
  }

  /** A round takes an attempt, or gives the supernode up when none is left. */
  function Attempted(c: Config, s: State, order: seq<Sn>, external: bool): State
    requires order != []
  {
    if s.attempts == 0 then GivingUp(c, s, order, external) else s.(attempts := s.attempts - 1)
  }

  function Updated(c: Config, s: State, e: Event): State
    requires e.Update? && e.order != []
  {
    if !Due(c, s, e.now) then s
    else
      var t := Attempted(c, s, e.order, e.external);
      var u := if e.resolves then Registering(t, e.cookie) else t;
      u.(wait := 1, lastReq := e.now - e.off)
  }

  /** sort_supernodes leaves the current supernode for another. */
  predicate Switches(s: State, e: Event) {
    e.Sort? && e.now as int - s.lastSweep > SWEEP_TIME &&
    var list := if s.wait == 0 then e.order else s.supernodes;
    list != [] && s.curr != list[0]
  }

  function Sorted(c: Config, s: State, e: Event): State
    requires e.Sort? && e.order != [] && s.supernodes != []
  {
    if e.now as int - s.lastSweep <= SWEEP_TIME then s
    else
      var list := if s.wait == 0 then e.order else s.supernodes;
      if !Switches(s, e) then s.(supernodes := list, lastSweep := e.now)
      else
        var t := s.(supernodes := list, curr := list[0], attempts := Reset(c));
        Registering(t, e.cookie).(wait := 1, lastReq := e.now, lastSweep := e.now)
  }

  /** add_sn_to_list_by_mac_or_sock: an entry that gets another MAC address moves to the end of the list,
      one that is not there yet is added there. */
  function Entered(list: seq<Sn>, l: Listing): (r: seq<Sn>)
    ensures l.sn in list ==> multiset(r) == multiset(list)
    ensures l.sn !in list || l.newMac ==> r != [] && r[|r| - 1] == l.sn
  {
    if l.sn !in list then list + [l.sn] else if l.newMac then Without(list, l.sn) + [l.sn] else list
  }

  function EnteredAll(list: seq<Sn>, ls: seq<Listing>): seq<Sn> {
    if ls == [] then list else Entered(EnteredAll(list, ls[..|ls| - 1]), ls[|ls| - 1])
  }

  /** The supernodes whose MAC address the listings bring. */
  function Named(ls: seq<Listing>): set<Sn> { set l | l in ls && l.newMac :: l.sn }

  function Without(list: seq<Sn>, sn: Sn): (r: seq<Sn>)
    requires sn in list
    ensures multiset(r) == multiset(list) - multiset{sn}
  {
    if list[0] == sn then assert list == [sn] + list[1..]; list[1..]
    else assert list == [list[0]] + list[1..]; [list[0]] + Without(list[1..], sn)
  }

  /** The acknowledgement is taken. */
  predicate Accepts(s: State, e: Event) {
    e.Ack? && s.wait != 0 && e.genuine && e.cookie == CookieOf(s, s.curr)
  }

  function Acknowledged(c: Config, s: State, e: Event): State
    requires e.Ack?
  {
    if !Accepts(s, e) then s
    else
      var list := Entered(s.supernodes, Listing(s.curr, s.curr !in s.known));
      s.(supernodes := EnteredAll(list, e.payload), known := s.known + {s.curr} + Named(e.payload),
         wait := 0, attempts := Reset(c), lastSup := if s.macSet then e.now else s.lastSup,
         log := s.log + [Accepted(s.curr, e.cookie, s.wait, s.macSet)])
  }

  function Received(s: State, e: Event): State
    requires e.Packet?
  {
    if s.lastSup == 0 then s
    else s.(lastSup := if e.fromSupernode then e.now else s.lastSup, log := s.log + [Delivered])
  }

  /** The entry after curr, or the first. */
  function Following(list: seq<Sn>, sn: Sn): Sn
    requires list != []
  {
    var i := Position(list, sn) + 1;
    if i < |list| then list[i] else list[0]
  }

  function Position(list: seq<Sn>, sn: Sn): nat {
    if list == [] || list[0] == sn then 0 else 1 + Position(list[1..], sn)
  }

  /** What is true of the calls: sorting keeps the entries, no entry is lost, clocks show some time. */
  ghost predicate Allowed(c: Config, s: State, e: Event) {
    match e
    case Update(now, order, off, _, _, _) => multiset(order) == multiset(s.supernodes)
    case Sort(now, order, _) => multiset(order) == multiset(s.supernodes)
    case Ack(now, _, _, _) => now > 0
    case Listed(list, _) => Distinct(list) && forall x :: x in s.supernodes ==> x in list
    case Packet(now, _) => now > 0
    case FirstPong(order) => multiset(order) == multiset(s.supernodes)
    case Ready(_, order) => multiset(order) == multiset(s.supernodes)
    case _ => true
  }

  lemma SameMembers(order: seq<Sn>, list: seq<Sn>)
    requires multiset(order) == multiset(list)
    ensures |order| == |list| && forall x :: x in order <==> x in list
  {
    assert |multiset(order)| == |multiset(list)|;
    forall x ensures x in order <==> x in list {
      assert x in order <==> x in multiset(order);
      assert x in list <==> x in multiset(list);
    }
  }

  ghost function Step(c: Config, s: State, e: Event): State
    requires Allowed(c, s, e) && s.supernodes != [] && s.curr in s.supernodes
  {
    match e
    case Update(_, order, _, _, _, _) => SameMembers(order, s.supernodes); Updated(c, s, e)
    case Sort(_, order, _) => SameMembers(order, s.supernodes); Sorted(c, s, e)
    case Ack(_, _, _, _) => Acknowledged(c, s, e)
    case Listed(list, known) => s.(supernodes := list, known := known)
    case ReRegister => if c.sharedSecret then s.(wait := 2) else s
    case Packet(_, _) => Received(s, e)
    case Frame => if s.lastSup == 0 then s else s.(log := s.log + [Forwarded])
    case ReadError => s.(wait := 1)
    case FirstPong(order) => SameMembers(order, s.supernodes); s.(supernodes := order, curr := order[0])
    case Ask(cookie) => Registering(s.(wait := 1), cookie)
    case TryNext => s.(curr := Following(s.supernodes, s.curr))
    case Device => s.(macSet := true)
    case Ready(now, order) =>
      s.(supernodes := order, wait := 1, lastReq := 0, lastSweep := now - SWEEP_TIME + 2 * BOOTSTRAP_TIMEOUT)
  }

  // ---- What holds in every run

  /** An acknowledgement was accepted after the device had its address. */
  ghost predicate HasRegistered(log: seq<Deed>) { exists j :: 0 <= j < |log| && log[j].Accepted? && log[j].withMac }

  /** The cookie of the last REGISTER_SUPER that went to sn, 0 when none did. */
  ghost function LastCookie(log: seq<Deed>, sn: Sn): nat {
    if log == [] then 0
    else
      var last := log[|log| - 1];
      if last.Sent? && last.sn == sn then last.cookie else LastCookie(log[..|log| - 1], sn)
  }

  /** An accepted acknowledgement came while one was awaited, with the cookie that was last sent to that
      supernode. */
  ghost predicate Answers(log: seq<Deed>, j: nat)
    requires j < |log| && log[j].Accepted?
  {
    log[j].wait != 0 && log[j].answer == LastCookie(log[..j], log[j].from)
  }

  /** Each accepted acknowledgement is an answer, and what passed the edge was preceded by a real one. */
  ghost predicate Lawful(log: seq<Deed>) {
    (forall j :: 0 <= j < |log| && log[j].Accepted? ==> Answers(log, j)) &&
    forall i :: 0 <= i < |log| && (log[i].Delivered? || log[i].Forwarded?) ==> HasRegistered(log[..i])
  }

  ghost predicate Inv(c: Config, s: State) {
    s.supernodes != [] && s.curr in s.supernodes && Distinct(s.supernodes) &&
    s.attempts <= Reset(c) && s.closeCounter < CLOSE_SOCKET_COUNTER_MAX && s.wait <= 2 &&
    (s.lastSup != 0 <==> HasRegistered(s.log)) && Lawful(s.log) &&
    (forall sn :: sn in s.cookies ==> sn in s.supernodes) &&
    forall sn :: CookieOf(s, sn) == LastCookie(s.log, sn)
  }

  ghost predicate Distinct(list: seq<Sn>) { forall i, j :: 0 <= i < j < |list| ==> list[i] != list[j] }

  /** After edge_init, and after the start of the edge program has put last_sup to zero. */
  ghost predicate Initial(c: Config, s: State) {
    s.supernodes != [] && Distinct(s.supernodes) && s.curr == s.supernodes[0] && s.cookies == map[] &&
    s.wait == 0 && s.attempts == Reset(c) && s.lastSup == 0 && s.closeCounter == 0 && !s.macSet && s.log == []
  }

  lemma InitialHolds(c: Config, s: State)
    requires Initial(c, s)
    ensures Inv(c, s)
  {
  }

  /** One more deed in the log. */
  lemma LogGrows(log: seq<Deed>, d: Deed)
    requires Lawful(log)
    requires d.Accepted? ==> d.wait != 0 && d.answer == LastCookie(log, d.from)
    requires d.Delivered? || d.Forwarded? ==> HasRegistered(log)
    ensures Lawful(log + [d]) && (HasRegistered(log + [d]) <==> HasRegistered(log) || (d.Accepted? && d.withMac))
    ensures forall sn :: LastCookie(log + [d], sn) == if d.Sent? && d.sn == sn then d.cookie else LastCookie(log, sn)
  {
    hide LastCookie, HasRegistered;
    var grown := log + [d];
    LastOfLog(log, d);
    RegisteredStays(log, d);
    forall j | 0 <= j < |grown| ensures grown[..j] == if j < |log| then log[..j] else log {
    }
    assert log[..|log|] == log;
  }

  lemma LastOfLog(log: seq<Deed>, d: Deed)
    ensures forall sn :: LastCookie(log + [d], sn) == if d.Sent? && d.sn == sn then d.cookie else LastCookie(log, sn)
  {
    assert (log + [d])[..|log|] == log;
  }

  lemma RegisteredStays(log: seq<Deed>, d: Deed)
    ensures HasRegistered(log + [d]) <==> HasRegistered(log) || (d.Accepted? && d.withMac)
  {
    var grown := log + [d];
    if HasRegistered(log) {
      var j :| 0 <= j < |log| && log[j].Accepted? && log[j].withMac;
      assert grown[j] == log[j];
    } else if HasRegistered(grown) {
      var j :| 0 <= j < |grown| && grown[j].Accepted? && grown[j].withMac;
      assert j < |log| ==> grown[j] == log[j];
    } else {
      assert grown[|log|] == d;
    }
  }

  lemma PermutedDistinct(order: seq<Sn>, list: seq<Sn>)
    requires multiset(order) == multiset(list) && Distinct(list)
    ensures Distinct(order)
  {
    forall i, j | 0 <= i < j < |order| ensures order[i] != order[j] {
      if order[i] == order[j] {
        TwiceCounted(order, i, j);
        OnceCounted(list, order[i]);
      }
    }
  }

  lemma TwiceCounted(s: seq<Sn>, i: nat, j: nat)
    requires i < j < |s| && s[i] == s[j]
    ensures multiset(s)[s[i]] >= 2
  {
    assert s == s[..j] + [s[j]] + s[j + 1..];
    assert s[i] in s[..j] by { assert s[..j][i] == s[i]; }
  }

  lemma {:induction false} OnceCounted(s: seq<Sn>, x: Sn)
    requires Distinct(s)
    ensures multiset(s)[x] <= 1
  {
    if s != [] {
      assert s == [s[0]] + s[1..];
      OnceCounted(s[1..], x);
      assert forall i :: 0 <= i < |s[1..]| ==> s[1..][i] == s[i + 1] != s[0];
    }
  }

  lemma RegisteringKeeps(c: Config, s: State, cookie: nat)
    requires Inv(c, s)
    ensures Inv(c, Registering(s, cookie))
  {
    hide HasRegistered, Lawful, LastCookie, Distinct;
    LogGrows(s.log, Sent(s.curr, cookie));
    RegisteredStays(s.log, Sent(s.curr, cookie));
  }

  lemma WaitingKeeps(c: Config, s: State, req: int, sweep: int)
    requires Inv(c, s)
    ensures Inv(c, s.(wait := 1, lastReq := req, lastSweep := sweep))
  {
    hide HasRegistered, Lawful, LastCookie, Distinct;
  }

  /** A permutation of the list with curr at its head. */
  lemma OrderKeeps(order: seq<Sn>, list: seq<Sn>)
    requires multiset(order) == multiset(list) && Distinct(list) && list != []
    ensures order != [] && order[0] in order && Distinct(order) && forall x :: x in order <==> x in list
  {
    SameMembers(order, list);
    PermutedDistinct(order, list);
  }

  lemma GivingUpKeeps(c: Config, s: State, order: seq<Sn>, external: bool)
    requires Inv(c, s) && multiset(order) == multiset(s.supernodes)
    ensures order != [] && Inv(c, GivingUp(c, s, order, external))
  {
    hide HasRegistered, Lawful, LastCookie, Distinct;
    OrderKeeps(order, s.supernodes);
    LogGrows(s.log, GaveUp(s.curr));
    RegisteredStays(s.log, GaveUp(s.curr));
  }

  lemma AttemptedKeeps(c: Config, s: State, order: seq<Sn>, external: bool)
    requires Inv(c, s) && multiset(order) == multiset(s.supernodes)
    ensures order != [] && Inv(c, Attempted(c, s, order, external))
  {
    hide HasRegistered, Lawful, LastCookie, Distinct, GivingUp;
    GivingUpKeeps(c, s, order, external);
  }

  lemma UpdatedKeeps(c: Config, s: State, e: Event)
    requires Inv(c, s) && e.Update? && Allowed(c, s, e)
    ensures e.order != [] && Inv(c, Updated(c, s, e))
  {
    hide HasRegistered, Lawful, LastCookie, Distinct, Due, Attempted;
    AttemptedKeeps(c, s, e.order, e.external);
    var t := Attempted(c, s, e.order, e.external);
    RegisteringKeeps(c, t, e.cookie);
    WaitingKeeps(c, if e.resolves then Registering(t, e.cookie) else t, e.now - e.off, t.lastSweep);
  }

  lemma SortedKeeps(c: Config, s: State, e: Event)
    requires Inv(c, s) && e.Sort? && Allowed(c, s, e)
    ensures e.order != [] && Inv(c, Sorted(c, s, e))
  {
    hide HasRegistered, Lawful, LastCookie, Distinct;
    OrderKeeps(e.order, s.supernodes);
    var list := if s.wait == 0 then e.order else s.supernodes;
    var t := s.(supernodes := list, curr := list[0], attempts := Reset(c));
    assert Inv(c, t);
    RegisteringKeeps(c, t, e.cookie);
    WaitingKeeps(c, Registering(t, e.cookie), e.now, e.now);
  }

  /** No entry is lost, only the listed one is new, and none is there twice. */
  lemma EnteredKeeps(list: seq<Sn>, l: Listing)
    requires Distinct(list)
    ensures Distinct(Entered(list, l)) && forall x :: x in Entered(list, l) <==> x in list || x == l.sn
  {
    if l.sn in list {
      SameMembers(Entered(list, l), list);
      PermutedDistinct(Entered(list, l), list);
    }
  }

  lemma {:induction false} EnteredAllKeeps(list: seq<Sn>, ls: seq<Listing>)
    requires Distinct(list)
    ensures Distinct(EnteredAll(list, ls))
    ensures forall x :: x in list ==> x in EnteredAll(list, ls)
  {
    hide Distinct;
    if ls != [] {
      EnteredAllKeeps(list, ls[..|ls| - 1]);
      EnteredKeeps(EnteredAll(list, ls[..|ls| - 1]), ls[|ls| - 1]);
    }
  }

  lemma AcknowledgedKeeps(c: Config, s: State, e: Event)
    requires Inv(c, s) && e.Ack? && Allowed(c, s, e)
    ensures Inv(c, Acknowledged(c, s, e))
  {
    hide HasRegistered, Lawful, LastCookie, Distinct, Entered, EnteredAll, Named;
    if Accepts(s, e) {
      var own := Listing(s.curr, s.curr !in s.known);
      EnteredKeeps(s.supernodes, own);
      EnteredAllKeeps(Entered(s.supernodes, own), e.payload);
      LogGrows(s.log, Accepted(s.curr, e.cookie, s.wait, s.macSet));
      RegisteredStays(s.log, Accepted(s.curr, e.cookie, s.wait, s.macSet));
    }
  }

  /** Trying the next goes once round the list. */
  lemma FollowingPlace(list: seq<Sn>, i: nat)
    requires Distinct(list) && i < |list|
    ensures Following(list, list[i]) == list[(i + 1) % |list|]
  {
    PositionOf(list, i);
    if i + 1 < |list| { assert (i + 1) % |list| == i + 1; }
  }

  lemma {:induction false} PositionOf(list: seq<Sn>, i: nat)
    requires Distinct(list) && i < |list|
    ensures Position(list, list[i]) == i
  {
    if i > 0 {
      assert list[1..][i - 1] == list[i];
      PositionOf(list[1..], i - 1);
    }
  }

  lemma {:induction false} FollowingIn(list: seq<Sn>, sn: Sn)
    requires list != []
    ensures Following(list, sn) in list
  {
  }

  /** Every step keeps the invariant. */
  lemma StepKeeps(c: Config, s: State, e: Event)
    requires Inv(c, s) && Allowed(c, s, e)
    ensures Inv(c, Step(c, s, e))
  {
    hide HasRegistered, Lawful, LastCookie, Distinct, Updated, Sorted, Acknowledged, Following;
    match e
    case Update(_, order, _, _, _, _) => UpdatedKeeps(c, s, e);
    case Sort(_, order, _) => SortedKeeps(c, s, e);
    case Ack(_, _, _, _) => AcknowledgedKeeps(c, s, e);
    case Packet(_, _) => if s.lastSup != 0 { LogGrows(s.log, Delivered); }
    case Frame => if s.lastSup != 0 { LogGrows(s.log, Forwarded); }
    case FirstPong(order) => OrderKeeps(order, s.supernodes);
    case Ask(cookie) => RegisteringKeeps(c, s.(wait := 1), cookie);
    case TryNext => FollowingIn(s.supernodes, s.curr);
    case Ready(_, order) => OrderKeeps(order, s.supernodes);
    case _ =>
  }

}
