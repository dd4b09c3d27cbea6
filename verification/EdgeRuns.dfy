/** Runs of the edge: what holds in all of them, which acknowledgements answer a REGISTER_SUPER, and how
    often a supernode is given up. */
module EdgeRuns {
  import opened EdgeSpec

  /** The events es, each allowed when its turn comes. */
  ghost predicate Run(c: Config, s: State, es: seq<Event>)
    requires Inv(c, s)
    decreases |es|
  {
    es == [] || (Allowed(c, s, es[0]) && Run(c, After(c, s, es[0]), es[1..]))
  }

  ghost function After(c: Config, s: State, e: Event): (t: State)
    requires Inv(c, s) && Allowed(c, s, e)
    ensures Inv(c, t)
  {
    StepKeeps(c, s, e);
    Step(c, s, e)
  }

  ghost function End(c: Config, s: State, es: seq<Event>): (t: State)
    requires Inv(c, s) && Run(c, s, es)
    ensures Inv(c, t)
    decreases |es|
  {
    if es == [] then s else End(c, After(c, s, es[0]), es[1..])
  }

  /** In every run from the start, whatever the order of its events: curr_sn is in the list, the attempts
      and the socket counter stay in their ranges, last_sup is set exactly when an acknowledgement was
      accepted after the device had its address, no PACKET reaches the TAP and no TAP frame leaves before
      that, and each accepted acknowledgement came while one was awaited and carried the cookie last sent
      to that supernode. */
  lemma EveryRun(c: Config, s: State, es: seq<Event>)
    requires Initial(c, s) && Run(c, s, es)
    ensures var t := End(c, s, es);
            t.curr in t.supernodes && t.attempts <= Reset(c) && t.closeCounter < 15 &&
            (t.lastSup != 0 <==> HasRegistered(t.log)) && Lawful(t.log)
  {
    InitialHolds(c, s);
  }

  // ---- The last REGISTER_SUPER to a supernode

  ghost predicate SentTo(log: seq<Deed>, sn: Sn) { exists i :: 0 <= i < |log| && log[i].Sent? && log[i].sn == sn }

  /** The last REGISTER_SUPER to sn had this cookie. */
  ghost predicate SentLast(log: seq<Deed>, sn: Sn, cookie: nat) {
    exists i :: 0 <= i < |log| && log[i] == Sent(sn, cookie) &&
                forall k :: i < k < |log| ==> !(log[k].Sent? && log[k].sn == sn)
  }

  lemma {:induction false} LastCookieSent(log: seq<Deed>, sn: Sn)
    ensures SentTo(log, sn) <==> SentLast(log, sn, LastCookie(log, sn))
  {
    if log != [] {
      var n := |log| - 1;
      var rest := log[..n];
      if log[n].Sent? && log[n].sn == sn {
        assert log[n] == Sent(sn, LastCookie(log, sn));
      } else {
        LastCookieSent(rest, sn);
        SentToBefore(log, sn);
        SentLastBefore(log, sn, LastCookie(rest, sn));
      }
    }
  }

  lemma SentToBefore(log: seq<Deed>, sn: Sn)
    requires log != [] && var last := log[|log| - 1]; !(last.Sent? && last.sn == sn)
    ensures SentTo(log, sn) <==> SentTo(log[..|log| - 1], sn)
  {
    var rest := log[..|log| - 1];
    if SentTo(log, sn) {
      var i :| 0 <= i < |log| && log[i].Sent? && log[i].sn == sn;
      assert rest[i] == log[i];
    }
    if SentTo(rest, sn) {
      var i :| 0 <= i < |rest| && rest[i].Sent? && rest[i].sn == sn;
      assert rest[i] == log[i];
    }
  }

  lemma SentLastBefore(log: seq<Deed>, sn: Sn, cookie: nat)
    requires log != [] && var last := log[|log| - 1]; !(last.Sent? && last.sn == sn)
    ensures SentLast(log, sn, cookie) <==> SentLast(log[..|log| - 1], sn, cookie)
  {
    var rest := log[..|log| - 1];
    if SentLast(log, sn, cookie) {
      var i :| 0 <= i < |log| && log[i] == Sent(sn, cookie) &&
               forall k :: i < k < |log| ==> !(log[k].Sent? && log[k].sn == sn);
      assert rest[i] == log[i];
    }
    if SentLast(rest, sn, cookie) {
      var i :| 0 <= i < |rest| && rest[i] == Sent(sn, cookie) &&
               forall k :: i < k < |rest| ==> !(rest[k].Sent? && rest[k].sn == sn);
      assert log[i] == rest[i];
    }
  }

  lemma SentToGrows(log: seq<Deed>, d: Deed, sn: Sn)
    ensures SentTo(log + [d], sn) <==> SentTo(log, sn) || (d.Sent? && d.sn == sn)
  {
    var grown := log + [d];
    assert grown[..|log|] == log && grown[|log|] == d;
    if d.Sent? && d.sn == sn {
      assert SentTo(grown, sn);
    } else {
      SentToBefore(grown, sn);
    }
  }

  /** An accepted acknowledgement answers the last REGISTER_SUPER to its supernode exactly when one was
      sent to it at all. */
  lemma AnswersTheLast(log: seq<Deed>, j: nat)
    requires j < |log| && log[j].Accepted? && Answers(log, j)
    ensures SentLast(log[..j], log[j].from, log[j].answer) <==> SentTo(log[..j], log[j].from)
  {
    LastCookieSent(log[..j], log[j].from);
  }

  /** The step registers with the supernode that is current after it: a round that is due and finds the
      address, a switch, or the question for an address. */
  predicate Asks(c: Config, s: State, e: Event) {
    (e.Update? && Due(c, s, e.now) && e.resolves) || Switches(s, e) || e.Ask?
  }

  /** Some step of the run registers with sn. */
  ghost predicate EverAsked(c: Config, s: State, es: seq<Event>, sn: Sn)
    requires Inv(c, s) && Run(c, s, es)
    decreases |es|
  {
    es != [] &&
    var t := After(c, s, es[0]);
    (Asks(c, s, es[0]) && t.curr == sn) || EverAsked(c, t, es[1..], sn)
  }

  lemma StepAsks(c: Config, s: State, e: Event, sn: Sn)
    requires Inv(c, s) && Allowed(c, s, e)
    ensures var t := After(c, s, e);
            SentTo(t.log, sn) <==> SentTo(s.log, sn) || (Asks(c, s, e) && t.curr == sn)
  {
    hide SentTo, HasRegistered, Lawful, LastCookie, Distinct, Entered, EnteredAll, Named, Following, CloseCount;
    var t := After(c, s, e);
    match e
    case Update(_, order, _, cookie, _, _) =>
      SentToGrows(s.log, GaveUp(s.curr), sn);
      SentToGrows(s.log, Sent(t.curr, cookie), sn);
      SentToGrows(s.log + [GaveUp(s.curr)], Sent(t.curr, cookie), sn);
    case Sort(_, _, cookie) => SentToGrows(s.log, Sent(t.curr, cookie), sn);
    case Ask(cookie) => SentToGrows(s.log, Sent(s.curr, cookie), sn);
    case Ack(_, cookie, _, _) => SentToGrows(s.log, Accepted(s.curr, cookie, s.wait, s.macSet), sn);
    case Packet(_, _) => SentToGrows(s.log, Delivered, sn);
    case Frame => SentToGrows(s.log, Forwarded, sn);
    case _ =>
  }

  lemma {:induction false} RunAsks(c: Config, s: State, es: seq<Event>, sn: Sn)
    requires Inv(c, s) && Run(c, s, es)
    ensures SentTo(End(c, s, es).log, sn) <==> SentTo(s.log, sn) || EverAsked(c, s, es, sn)
    decreases |es|
  {
    hide Inv, SentTo, After, Asks, Allowed;
    if es != [] {
      StepAsks(c, s, es[0], sn);
      RunAsks(c, After(c, s, es[0]), es[1..], sn);
    }
  }

  /** In every run an acknowledgement that is accepted answers the last REGISTER_SUPER to its supernode
      if and only if some round that was due found the address of that supernode, or it was switched
      to, or asked for an address. */
  lemma AnswersExactly(c: Config, s: State, es: seq<Event>, ack: Event)
    requires Initial(c, s) && Run(c, s, es) && Accepts(End(c, s, es), ack)
    ensures var t := End(c, s, es); SentLast(t.log, t.curr, ack.cookie) <==> EverAsked(c, s, es, t.curr)
  {
    hide SentLast, HasRegistered, Lawful, LastCookie, Distinct, EverAsked, Run, End;
    InitialHolds(c, s);
    var t := End(c, s, es);
    RunAsks(c, s, es, t.curr);
    LastCookieSent(t.log, t.curr);
    assert !SentTo(s.log, t.curr);
  }

  // ---- The order in which the program makes its calls

  /** The start in apps/n3n-edge.c, up to the first round in run_edge_loop, and the loop: waiting for a
      PONG; with a supernode chosen; waiting for an address; with the device open; set up; in the loop. */
  datatype Phase = Pinging | Chosen | Asked | Opened | SetUp | Looping

  predicate Reads(p: Phase) { p.Pinging? || p.Asked? || p.Looping? }

  /** Pings are skipped over TCP, with a shared secret, and for a single supernode. */
  function FirstPhase(c: Config, s: State): Phase {
    if c.connectTcp || c.sharedSecret || |s.supernodes| <= 1 then Chosen else Pinging
  }

  /** Which calls and packets may come next. */
  predicate May(c: Config, p: Phase, s: State, e: Event) {
    match e
    case Update(_, _, _, _, _, _) => p.SetUp? || p.Looping?
    case Sort(_, _, _) => p.Looping?
    case Frame => p.Looping?
    case ReadError => Reads(p) && c.connectTcp
    case FirstPong(_) => p.Pinging?
    case Ask(_) => p.Chosen? && c.autoAddress
    case TryNext => p.Asked? && s.wait != 0
    case Device => if c.autoAddress then p.Asked? && s.wait == 0 else p.Chosen?
    case Ready(_, _) => p.Opened?
    case _ => Reads(p)
  }

  function Next(p: Phase, e: Event): Phase {
    match e
    case FirstPong(_) => Chosen
    case Ask(_) => Asked
    case TryNext => Chosen
    case Device => Opened
    case Ready(_, _) => SetUp
    case Update(_, _, _, _, _, _) => Looping
    case _ => p
  }

  /** A run in the order of the program. */
  ghost predicate Program(c: Config, p: Phase, s: State, es: seq<Event>)
    requires Inv(c, s)
    decreases |es|
  {
    es == [] ||
    (Allowed(c, s, es[0]) && May(c, p, s, es[0]) && Program(c, Next(p, es[0]), After(c, s, es[0]), es[1..]))
  }

  function LastPhase(p: Phase, es: seq<Event>): Phase
    decreases |es|
  {
    if es == [] then p else LastPhase(Next(p, es[0]), es[1..])
  }

  lemma {:induction false} ProgramRuns(c: Config, p: Phase, s: State, es: seq<Event>)
    requires Inv(c, s) && Program(c, p, s, es)
    ensures Run(c, s, es)
    decreases |es|
  {
    if es != [] { ProgramRuns(c, Next(p, es[0]), After(c, s, es[0]), es[1..]); }
  }

  /** curr_sn is assigned. */
  predicate Chooses(c: Config, s: State, e: Event) {
    (e.Update? && Due(c, s, e.now) && s.attempts == 0) || Switches(s, e) || e.FirstPong? || e.TryNext?
  }

  /** Whether a step since curr_sn was last assigned, that one included, registers with it; before says
      whether one did before the run. */
  ghost predicate AskedSince(c: Config, s: State, es: seq<Event>, before: bool)
    requires Inv(c, s) && Run(c, s, es)
    decreases |es|
  {
    if es == [] then before
    else
      AskedSince(c, After(c, s, es[0]), es[1..], Asks(c, s, es[0]) || (before && !Chooses(c, s, es[0])))
  }

  /** The last REGISTER_SUPER of all went to sn with this cookie, and sn was not given up since. */
  ghost predicate AskedLast(log: seq<Deed>, sn: Sn, cookie: nat) {
    exists i :: 0 <= i < |log| && log[i] == Sent(sn, cookie) &&
                forall k :: i < k < |log| ==> !log[k].Sent? && !log[k].GaveUp?
  }

  lemma AskedLastGrows(log: seq<Deed>, d: Deed, sn: Sn, cookie: nat)
    ensures AskedLast(log + [d], sn, cookie) <==>
              if d.Sent? then d == Sent(sn, cookie) else !d.GaveUp? && AskedLast(log, sn, cookie)
  {
    var grown := log + [d];
    var n := |log|;
    assert grown[n] == d;
    if AskedLast(grown, sn, cookie) {
      var i :| 0 <= i < |grown| && grown[i] == Sent(sn, cookie) &&
               forall k :: i < k < |grown| ==> !grown[k].Sent? && !grown[k].GaveUp?;
      if i < n {
        assert log[i] == Sent(sn, cookie);
        assert !grown[n].Sent? && !grown[n].GaveUp?;
        assert forall k :: i < k < |log| ==> log[k] == grown[k];
      }
    }
    if !d.Sent? && !d.GaveUp? && AskedLast(log, sn, cookie) {
      var i :| 0 <= i < |log| && log[i] == Sent(sn, cookie) &&
               forall k :: i < k < |log| ==> !log[k].Sent? && !log[k].GaveUp?;
      assert grown[i] == Sent(sn, cookie);
    }
  }

  ghost predicate NothingSent(log: seq<Deed>) { forall i :: 0 <= i < |log| ==> !log[i].Sent? }

  /** What the phases keep of the question whether the current supernode was asked. */
  ghost predicate Linked(c: Config, p: Phase, s: State, r: bool) {
    (p.Asked? ==> r && c.autoAddress) && (p.Pinging? ==> s.wait == 0 && !c.connectTcp && !c.sharedSecret) &&
    (p.SetUp? ==> s.wait == 1 && s.lastReq == 0) &&
    (p.Pinging? || (p.Chosen? && !c.autoAddress) ==> NothingSent(s.log) && !r) &&
    (p.Chosen? || (r <==> AskedLast(s.log, s.curr, CookieOf(s, s.curr))))
  }

  lemma NothingAsked(log: seq<Deed>, sn: Sn, cookie: nat)
    requires NothingSent(log)
    ensures !AskedLast(log, sn, cookie)
  {
  }

  lemma UpdateLinked(c: Config, p: Phase, s: State, r: bool, e: Event)
    requires Inv(c, s) && Linked(c, p, s, r) && Allowed(c, s, e) && May(c, p, s, e) && e.Update?
    ensures Linked(c, Next(p, e), After(c, s, e), Asks(c, s, e) || (r && !Chooses(c, s, e)))
  {
    hide HasRegistered, Lawful, LastCookie, Distinct, CloseCount, AskedLast, NothingSent, Due;
    var t := After(c, s, e);
    SameMembers(e.order, s.supernodes);
    assert t == Updated(c, s, e);
    var log := if s.attempts == 0 then s.log + [GaveUp(s.curr)] else s.log;
    AskedLastGrows(s.log, GaveUp(s.curr), t.curr, CookieOf(t, t.curr));
    AskedLastGrows(log, Sent(t.curr, e.cookie), t.curr, e.cookie);
  }

  lemma SortLinked(c: Config, p: Phase, s: State, r: bool, e: Event)
    requires Inv(c, s) && Linked(c, p, s, r) && Allowed(c, s, e) && May(c, p, s, e) && e.Sort?
    ensures Linked(c, Next(p, e), After(c, s, e), Asks(c, s, e) || (r && !Chooses(c, s, e)))
  {
    hide HasRegistered, Lawful, LastCookie, Distinct, AskedLast, NothingSent;
    var t := After(c, s, e);
    SameMembers(e.order, s.supernodes);
    assert t == Sorted(c, s, e);
    AskedLastGrows(s.log, Sent(t.curr, e.cookie), t.curr, e.cookie);
  }

  lemma OtherLinked(c: Config, p: Phase, s: State, r: bool, e: Event)
    requires Inv(c, s) && Linked(c, p, s, r) && Allowed(c, s, e) && May(c, p, s, e) && !e.Update? && !e.Sort?
    ensures Linked(c, Next(p, e), After(c, s, e), Asks(c, s, e) || (r && !Chooses(c, s, e)))
  {
    hide HasRegistered, Lawful, LastCookie, Distinct, AskedLast, Entered, EnteredAll, Named, Following;
    var t := After(c, s, e);
    match e
    case Ack(_, cookie, _, _) => AskedLastGrows(s.log, Accepted(s.curr, cookie, s.wait, s.macSet), s.curr, cookie);
    case Packet(_, _) => AskedLastGrows(s.log, Delivered, s.curr, CookieOf(s, s.curr));
    case Frame => AskedLastGrows(s.log, Forwarded, s.curr, CookieOf(s, s.curr));
    case Ask(cookie) => AskedLastGrows(s.log, Sent(s.curr, cookie), s.curr, cookie);
    case Device =>
      if p.Chosen? { NothingAsked(s.log, s.curr, CookieOf(s, s.curr)); }
    case _ =>
  }

  lemma StepLinked(c: Config, p: Phase, s: State, r: bool, e: Event)
    requires Inv(c, s) && Linked(c, p, s, r) && Allowed(c, s, e) && May(c, p, s, e)
    ensures Linked(c, Next(p, e), After(c, s, e), Asks(c, s, e) || (r && !Chooses(c, s, e)))
  {
    if e.Update? {
      UpdateLinked(c, p, s, r, e);
    } else if e.Sort? {
      SortLinked(c, p, s, r, e);
    } else {
      OtherLinked(c, p, s, r, e);
    }
  }

  lemma {:induction false} RunLinked(c: Config, p: Phase, s: State, r: bool, es: seq<Event>)
    requires Inv(c, s) && Linked(c, p, s, r) && Program(c, p, s, es)
    ensures Run(c, s, es) && Linked(c, LastPhase(p, es), End(c, s, es), AskedSince(c, s, es, r))
    decreases |es|
  {
    hide Inv, Linked, After, Asks, Chooses, Allowed, May, Next;
    ProgramRuns(c, p, s, es);
    if es != [] {
      StepLinked(c, p, s, r, es[0]);
      RunLinked(c, Next(p, es[0]), After(c, s, es[0]),
                Asks(c, s, es[0]) || (r && !Chooses(c, s, es[0])), es[1..]);
    }
  }

  lemma InitialLinked(c: Config, s: State)
    requires Initial(c, s)
    ensures Inv(c, s) && Linked(c, FirstPhase(c, s), s, false)
  {
    InitialHolds(c, s);
    NothingAsked(s.log, s.curr, 0);
  }

  /** When packets are read and an acknowledgement is taken, it answers the REGISTER_SUPER that went to
      the current supernode since it became that, the last that was sent at all, if and only if the
      address was found in some round since then, or it was switched to or asked for an address. */
  lemma AnswersSince(c: Config, s: State, es: seq<Event>, ack: Event)
    requires Initial(c, s) && Program(c, FirstPhase(c, s), s, es) && Reads(LastPhase(FirstPhase(c, s), es))
    requires Run(c, s, es) && Accepts(End(c, s, es), ack)
    ensures var t := End(c, s, es); AskedLast(t.log, t.curr, ack.cookie) <==> AskedSince(c, s, es, false)
  {
    hide Inv, AskedLast, AskedSince, Run, End, Program;
    InitialLinked(c, s);
    RunLinked(c, FirstPhase(c, s), s, false, es);
  }

  /** Every round finds the address, and the clock is past a tenth of the register interval. */
  predicate Resolving(c: Config, es: seq<Event>) {
    forall i :: 0 <= i < |es| && es[i].Update? ==> es[i].resolves && es[i].now > c.registerInterval / 10
  }

  lemma {:induction false} ResolvingAsks(c: Config, p: Phase, s: State, r: bool, es: seq<Event>)
    requires Inv(c, s) && Linked(c, p, s, r) && Program(c, p, s, es) && Resolving(c, es) && (p.Looping? ==> r)
    ensures Run(c, s, es) && (LastPhase(p, es).Looping? ==> AskedSince(c, s, es, r))
    decreases |es|
  {
    hide Inv, After, Allowed;
    ProgramRuns(c, p, s, es);
    if es != [] {
      var e := es[0];
      StepLinked(c, p, s, r, e);
      assert e.Update? ==> e.resolves && e.now > c.registerInterval / 10;
      assert Resolving(c, es[1..]) by {
        forall i | 0 <= i < |es[1..]| ensures es[1..][i] == es[i + 1] {
        }
      }
      ResolvingAsks(c, Next(p, e), After(c, s, e), Asks(c, s, e) || (r && !Chooses(c, s, e)), es[1..]);
    }
  }

  /** So in a run whose rounds all find the address every acknowledgement that is taken answers the
      REGISTER_SUPER that was sent last, to the supernode that is current since then. */
  lemma AnswersWhenResolving(c: Config, s: State, es: seq<Event>, ack: Event)
    requires Initial(c, s) && Program(c, FirstPhase(c, s), s, es) && Reads(LastPhase(FirstPhase(c, s), es))
    requires Run(c, s, es) && Accepts(End(c, s, es), ack) && Resolving(c, es)
    ensures var t := End(c, s, es); AskedLast(t.log, t.curr, ack.cookie)
  {
    hide Inv, AskedLast, Run, End, Program, Resolving, AskedSince;
    InitialLinked(c, s);
    var p := FirstPhase(c, s);
    RunLinked(c, p, s, false, es);
    ResolvingAsks(c, p, s, false, es);
  }

  /** When it does not find the address, one with cookie zero is taken for an answer although nothing was
      sent: the edge of this run has one supernode, and the only round made before has failed. */
  lemma UnaskedAnswer(c: Config, s: State)
    requires Initial(c, s) && s.supernodes == [7] && !c.autoAddress
    ensures var now := c.registerInterval + 1;
            var es := [Device, Ready(now, [7]), Update(now, [7], 0, 5, false, false)];
            Inv(c, s) && Program(c, FirstPhase(c, s), s, es) && Run(c, s, es) &&
            LastPhase(FirstPhase(c, s), es) == Looping && Accepts(End(c, s, es), Ack(now, 0, true, [])) &&
            !SentTo(End(c, s, es).log, 7)
  {
    hide HasRegistered, Lawful, LastCookie, Inv;
    InitialHolds(c, s);
    var now := c.registerInterval + 1;
    var es := [Device, Ready(now, [7]), Update(now, [7], 0, 5, false, false)];
    var s1 := After(c, s, es[0]);
    var s2 := After(c, s1, es[1]);
    assert es[1..] == [es[1], es[2]] && es[1..][1..] == [es[2]] && es[1..][1..][1..] == [];
    assert Allowed(c, s2, es[2]);
    var s3 := After(c, s2, es[2]);
    assert Program(c, Looping, s3, []) && Program(c, SetUp, s2, [es[2]]) && Program(c, Opened, s1, es[1..]);
    assert Program(c, Chosen, s, es);
    ProgramRuns(c, Chosen, s, es);
    assert Run(c, s3, []) && Run(c, s2, [es[2]]) && Run(c, s1, es[1..]);
    assert End(c, s, es) == End(c, s1, es[1..]) == End(c, s2, [es[2]]) == End(c, s3, []) == s3;
    assert LastPhase(SetUp, [es[2]]) == LastPhase(Looping, []) == Looping;
    assert s3.log == [] && s3.wait == 1 && s3.curr == 7;
  }

  /** After the start the list is left alone for six seconds, and the first sweep after that is one. */
  lemma FirstSweep(c: Config, s: State, order: seq<Sn>, start: nat, sort: Event)
    requires Inv(c, s) && Allowed(c, s, Ready(start, order)) && sort.Sort?
    requires Allowed(c, After(c, s, Ready(start, order)), sort)
    ensures var t := After(c, s, Ready(start, order));
            if sort.now <= start + 6 then After(c, t, sort) == t
            else var u := After(c, t, sort); u.lastSweep == sort.now && u.curr == u.supernodes[0]
  {
    hide HasRegistered, Lawful, LastCookie, Distinct;
    var t := After(c, s, Ready(start, order));
    SameMembers(sort.order, t.supernodes);
  }

  // ---- Giving up

  ghost function Losses(log: seq<Deed>): nat {
    if log == [] then 0 else Losses(log[..|log| - 1]) + if log[|log| - 1].GaveUp? then 1 else 0
  }

  lemma LossesGrow(log: seq<Deed>, d: Deed)
    ensures Losses(log + [d]) == Losses(log) + if d.GaveUp? then 1 else 0
  {
    assert (log + [d])[..|log|] == log;
  }

  /** One round that is due: an attempt less, or, with none left, another supernode and all attempts
      again. */
  lemma OneRound(c: Config, s: State, e: Event)
    requires Inv(c, s) && e.Update? && Allowed(c, s, e) && Due(c, s, e.now)
    ensures var t := After(c, s, e);
            t.attempts == (if s.attempts == 0 then Reset(c) else s.attempts - 1) &&
            Losses(t.log) == Losses(s.log) + if s.attempts == 0 then 1 else 0
  {
    hide Losses, Due, Lawful, HasRegistered, LastCookie, Distinct;
    SameMembers(e.order, s.supernodes);
    var log := if s.attempts == 0 then s.log + [GaveUp(s.curr)] else s.log;
    LossesGrow(s.log, GaveUp(s.curr));
    LossesGrow(log, Sent(if s.attempts == 0 then e.order[0] else s.curr, e.cookie));
  }

  predicate Round(c: Config, s: State, e: Event) { e.Update? && Due(c, s, e.now) }

  /** Any other step that takes no acknowledgement and does not switch leaves the attempts alone. */
  lemma OtherStep(c: Config, s: State, e: Event)
    requires Inv(c, s) && Allowed(c, s, e) && !Round(c, s, e) && !Accepts(s, e) && !Switches(s, e)
    ensures After(c, s, e).attempts == s.attempts && Losses(After(c, s, e).log) == Losses(s.log)
  {
    hide Losses, Due, Lawful, HasRegistered, LastCookie, Distinct, Following;
    match e
    case Packet(_, _) => LossesGrow(s.log, Delivered);
    case Frame => LossesGrow(s.log, Forwarded);
    case Ask(cookie) => LossesGrow(s.log, Sent(s.curr, cookie));
    case _ =>
  }

  /** No acknowledgement is taken and sort_supernodes does not switch. */
  ghost predicate Quiet(c: Config, s: State, es: seq<Event>)
    requires Inv(c, s) && Run(c, s, es)
    decreases |es|
  {
    es == [] || (!Accepts(s, es[0]) && !Switches(s, es[0]) && Quiet(c, After(c, s, es[0]), es[1..]))
  }

  /** How many of the calls of update_supernode_reg find a round due. */
  ghost function Rounds(c: Config, s: State, es: seq<Event>): nat
    requires Inv(c, s) && Run(c, s, es)
    decreases |es|
  {
    if es == [] then 0
    else (if Round(c, s, es[0]) then 1 else 0) + Rounds(c, After(c, s, es[0]), es[1..])
  }

  lemma AttemptsInRange(c: Config, s: State)
    requires Inv(c, s)
    ensures s.attempts <= Reset(c) && Reset(c) == if c.connectTcp then 1 else 3
  {
  }

  lemma OneTurn(k: nat, r: nat, a: nat)
    requires k > 0 && a <= r && (r == 1 || r == 3)
    ensures var b := if a == 0 then r else a - 1; var n := k + r - a; var m := k - 1 + r - b;
            n / (r + 1) == m / (r + 1) + (if a == 0 then 1 else 0) && n % (r + 1) == m % (r + 1)
  {
    if r == 1 {
      assert (k + 1 - a) / 2 == (k - 1 + 1 - (if a == 0 then 1 else a - 1)) / 2 + if a == 0 then 1 else 0;
    } else {
      assert (k + 3 - a) / 4 == (k - 1 + 3 - (if a == 0 then 3 else a - 1)) / 4 + if a == 0 then 1 else 0;
    }
  }

  lemma FullTurn(r: nat, a: nat)
    requires a <= r
    ensures (r - a) / (r + 1) == 0 && (r - a) % (r + 1) == r - a
  {
  }

  /** In a run that takes no acknowledgement and switches to no other supernode, with whatever else
      between the rounds, the supernode is given up once every Reset + 1 rounds, counted from the round
      that follows a full set of attempts. */
  lemma {:induction false} GivenUpRegularly(c: Config, s: State, es: seq<Event>)
    requires Inv(c, s) && Run(c, s, es) && Quiet(c, s, es)
    ensures var n := Rounds(c, s, es) + Reset(c) - s.attempts; var t := End(c, s, es);
            Losses(t.log) == Losses(s.log) + n / (Reset(c) + 1) && t.attempts == Reset(c) - n % (Reset(c) + 1)
    decreases |es|
  {
    hide Inv, Losses, After, Reset, Due, Accepts, Switches, Allowed;
    AttemptsInRange(c, s);
    if es == [] {
      FullTurn(Reset(c), s.attempts);
    } else {
      var e := es[0];
      GivenUpRegularly(c, After(c, s, e), es[1..]);
      if Round(c, s, e) {
        OneRound(c, s, e);
        OneTurn(Rounds(c, s, es), Reset(c), s.attempts);
      } else {
        OtherStep(c, s, e);
      }
    }
  }
}
