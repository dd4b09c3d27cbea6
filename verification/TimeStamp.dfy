/** time_stamp of src/n2n.c, the generator of the replay protection stamps. */
module TimeStamp {
  import opened Bits

  const WORD: nat := 0x1_0000_0000
  const ALL: nat := 0xFFFF_FFFF_FFFF_FFFF

  type U64 = x: int | 0 <= x < 0x1_0000_0000_0000_0000

  // ---- What a stamp is

  /** A reading of the clock. */
  datatype Time = Time(sec: nat, usec: nat) {
    predicate Valid() { sec < WORD && usec < 1000000 }

    /** Seconds in the high word, microseconds from bit 12 on. */
    function Ticks(): nat { sec * WORD + usec * 0x1000 }
  }

  /** The lowest bit: from now on there is only the counter, no fraction of a second. */
  predicate Flag(stamp: nat) { stamp % 2 == 1 }

  /** What the time changes in steps of: the low 12 bits of a stamp, or with the flag the low 32, are
      counter and flags. */
  function Unit(flag: bool): nat { if flag then WORD else 0x1000 }

  function Counter(stamp: nat): nat { stamp % Unit(Flag(stamp)) / 16 }

  function SameTime(prev: nat, t: nat): bool { prev / Unit(Flag(prev)) == t / Unit(Flag(prev)) }

  function NextCounter(prev: nat, t: nat): nat { if SameTime(prev, t) then Counter(prev) + 1 else 0 }

  /** The flag stays once it is set, and is set when the eight bits of the counter run over. */
  predicate NextFlag(prev: nat, t: nat) { Flag(prev) || NextCounter(prev, t) == 256 }

  function Bit(b: bool): nat { if b then 1 else 0 }

  /** The stamp after prev when the clock shows t: time, counter and flag. */
  function Next(prev: nat, t: nat): nat {
    t - t % Unit(NextFlag(prev, t)) + 16 * NextCounter(prev, t) + Bit(NextFlag(prev, t))
  }

  /** The 28 bits of the counter run over. */
  predicate UsedUp(prev: nat, t: nat) { NextCounter(prev, t) == 0x1000_0000 }

  /** What the code issues, also then: the parts are joined by or. */
  function Issued(prev: nat, t: nat): nat {
    BitOr(BitOr(t - t % Unit(NextFlag(prev, t)), 16 * NextCounter(prev, t)), Bit(NextFlag(prev, t)))
  }

  // ---- The branchless code

  function Not64(x: U64): U64 { ALL - x }

  function Neg64(x: U64): U64 { if x == 0 then 0 else ALL + 1 - x }

  lemma Powers()
    ensures Pow2(12) == 0x1000 && Pow2(32) == WORD && Pow2(64) == ALL + 1
  {
    assert Pow2(8) == 256;
    Pow2Add(8, 4);
    Pow2Add(8, 8);
    Pow2Add(16, 16);
    Pow2Add(32, 32);
  }

  lemma MaskLow(x: U64, flag: bool)
    ensures BitAnd(x, Unit(flag) - 1) == x % Unit(flag)
  {
    hide BitAnd, Pow2;
    Powers();
    AndMask(x, if flag then 32 else 12);
  }

  lemma MaskHigh(x: U64, flag: bool)
    ensures BitAnd(x, Not64(Unit(flag) - 1)) == x - x % Unit(flag)
  {
    hide BitAnd, Pow2;
    Powers();
    AndComplement(64, x, Unit(flag) - 1);
    MaskLow(x, flag);
  }

  lemma SameHigh(x: U64, y: U64, flag: bool)
    ensures (BitAnd(x, Not64(Unit(flag) - 1)) == BitAnd(y, Not64(Unit(flag) - 1))) == (x / Unit(flag) == y / Unit(flag))
  {
    hide BitAnd;
    MaskHigh(x, flag);
    MaskHigh(y, flag);
  }

  lemma MaskUnion()
    ensures BitOr(0, 0xFFF) == 0xFFF && BitOr(0xFFFF_FFFF, 0xFFF) == 0xFFFF_FFFF
  {
    hide BitOr, Pow2;
    Powers();
    OrApart(12, 0, 0xFFF);
    OrOnes(32, 0xFFF);
  }

  /** mask_lo from the flag. */
  method lowMask(co: U64) returns (maskLo: U64)
    requires co < 2
    ensures maskLo == Unit(co == 1) - 1
  {
    hide BitOr;
    MaskUnion();
    var half := Neg64(co) / 0x1_0000_0000;
    maskLo := BitOr(half, Not64(half) / 0x10_0000_0000_0000);
  }

  lemma ParityShift(x: U64)
    ensures x * 0x8000_0000_0000_0000 % 0x1_0000_0000_0000_0000 / 0x8000_0000_0000_0000 == x % 2
  {
  }

  lemma OrBits()
    ensures BitOr(0, 0) == 0 && BitOr(0, 1) == 1 && BitOr(1, 0) == 1 && BitOr(1, 1) == 1
    ensures BitAnd(0, 0) == 0 && BitAnd(0, 1) == 0 && BitAnd(1, 0) == 0 && BitAnd(1, 1) == 1
  {
  }

  /** counter & -hi_unchanged. */
  lemma AllOrNothing(x: U64, h: U64)
    requires h < 2
    ensures BitAnd(x, Neg64(h)) == if h == 1 then x else 0
  {
    hide BitAnd, Pow2;
    Powers();
    AndMask(x, 64);
    AndZero(x);
  }

  lemma OrIsU64(x: U64, y: U64)
    ensures BitOr(x, y) <= ALL
  {
    hide BitOr, Pow2;
    Powers();
    OrBound(64, x, y);
  }

  class Stamper {
    /** previously_issued_time_stamp. */
    var previous: U64

    constructor ()
      ensures previous == 0
    {
      previous := 0;
    }

    /** time_stamp, on a clock that shows t. */
    method timeStamp(t: Time) returns (stamp: U64)
      requires t.Valid()
      modifies this
      ensures stamp == previous == Issued(old(previous), t.Ticks())
    {
      hide BitOr, BitAnd;
      ghost var prev := previous;
      var microSeconds: U64 := t.sec * 0x1_0000_0000 + t.usec * 0x1000;
      ParityShift(previous);
      var co: U64 := previous * 0x8000_0000_0000_0000 % 0x1_0000_0000_0000_0000 / 0x8000_0000_0000_0000;
      var counter, newCo := count(previous, microSeconds, co);
      stamp := assemble(microSeconds, counter, newCo);
      previous := stamp;
    }
  }

  /** The counter in its place, and the new flag. */
  method count(prev: U64, microSeconds: U64, co: U64) returns (counter: U64, newCo: U64)
    requires co == Bit(Flag(prev))
    ensures counter == 16 * NextCounter(prev, microSeconds) && newCo == Bit(NextFlag(prev, microSeconds))
  {
    hide BitOr, BitAnd, Unit;
    var maskLo := lowMask(co);
    var maskHi := Not64(maskLo);
    SameHigh(prev, microSeconds, co == 1);
    var hiUnchanged: U64 := if BitAnd(prev, maskHi) == BitAnd(microSeconds, maskHi) then 1 else 0;
    MaskLow(prev, co == 1);
    CounterBound(prev);
    counter := BitAnd(prev, maskLo) / 16;
    counter := counter + hiUnchanged;
    AllOrNothing(counter, hiUnchanged);
    counter := BitAnd(counter, Neg64(hiUnchanged));
    counter := counter * 16;
    MaskLow(counter, co == 1);
    FlagOfCounter(prev, microSeconds);
    OrBits();
    newCo := BitOr(BitAnd(if BitAnd(counter, maskLo) == 0 then 1 else 0, hiUnchanged), co);
  }

  method assemble(micro: U64, counter: U64, newCo: U64) returns (stamp: U64)
    requires newCo < 2
    ensures stamp == BitOr(BitOr(micro - micro % Unit(newCo == 1), counter), newCo)
  {
    hide BitOr, BitAnd, Unit;
    var maskHi := lowMask(newCo);
    maskHi := Not64(maskHi);
    MaskHigh(micro, newCo == 1);
    stamp := BitAnd(micro, maskHi);
    OrIsU64(stamp, counter);
    stamp := BitOr(stamp, counter);
    OrIsU64(stamp, newCo);
    stamp := BitOr(stamp, newCo);
  }

  lemma CounterBound(prev: U64)
    ensures 0 <= Counter(prev) < 0x1000_0000 && Unit(Flag(prev)) > 0
  {
  }

  /** Shifted by the flag bits, the counter has run over the low word exactly at its end. */
  lemma FlagOfCounter(prev: U64, t: nat)
    ensures !Flag(prev) && SameTime(prev, t) ==>
              (16 * NextCounter(prev, t) % Unit(false) == 0) == (NextCounter(prev, t) == 256)
    ensures 16 * NextCounter(prev, t) <= WORD
  {
  }

  // ---- One call

  lemma CounterShort(prev: nat)
    ensures !Flag(prev) ==> Counter(prev) < 256
  {
  }

  /** As long as the counter is not used up, or is plus. */
  lemma IssuedIsNext(prev: nat, t: nat)
    requires !UsedUp(prev, t)
    ensures Issued(prev, t) == Next(prev, t)
  {
    hide BitOr, Pow2, Counter, SameTime;
    Powers();
    assert Pow2(4) == 16 by { Small(); }
    CounterShort(prev);
    CounterLong(prev);
    var f, c := NextFlag(prev, t), NextCounter(prev, t);
    var u := Unit(f);
    OrApart(if f then 32 else 12, t / u, 16 * c);
    OrApart(4, t / u * (u / 16) + c, Bit(f));
  }

  lemma Small()
    ensures Pow2(4) == 16
  {
  }

  lemma CounterLong(prev: nat)
    ensures Counter(prev) < 0x1000_0000
  {
  }

  /** prev belongs to the reading t and has a counter below n. */
  predicate Fits(prev: nat, t: nat, n: nat) {
    SameTime(prev, t) && prev % 16 == Bit(Flag(prev)) && Counter(prev) < n
  }

  /** With the flag set there is one counter for the whole second. */
  lemma StepCounting(prev: nat, t: nat, t': nat, n: nat, n': nat)
    requires Fits(prev, t, n) && Flag(prev) && t <= t' && !UsedUp(prev, t')
    requires n' == if t / WORD == t' / WORD then n + 1 else 1
    ensures var next := Next(prev, t'); Fits(next, t', n') && Flag(next) && prev < next
  {
    CounterLong(prev);
    var c := NextCounter(prev, t');
    Parts(t' / WORD, c, 1, WORD);
  }

  /** Without the flag there is a counter for each microsecond. */
  lemma StepTimed(prev: nat, t: nat, t': nat, n: nat, n': nat)
    requires Fits(prev, t, n) && !Flag(prev) && t <= t'
    requires n' == if t / WORD == t' / WORD then n + 1 else 1
    ensures var next := Next(prev, t'); Fits(next, t', n') && (prev < next || Flag(next))
  {
    CounterShort(prev);
    SameTickSameSecond(prev, t, t');
    var c := NextCounter(prev, t');
    if NextFlag(prev, t') {
      Parts(t' / WORD, c, 1, WORD);
    } else {
      Parts(t' / 0x1000, c, 0, 0x1000);
    }
  }

  /** The parts of a stamp with the time x, the counter c and the flag f. */
  lemma Parts(x: nat, c: nat, f: nat, u: nat)
    requires u == Unit(f == 1) && f < 2 && 16 * c < u
    ensures var p := u * x + 16 * c + f;
            Flag(p) == (f == 1) && p % 16 == f && p / u == x && p % u / 16 == c
  {
    if f == 1 { CountingParts(x, c); } else { TimedParts(x, c); }
  }

  lemma CountingParts(x: nat, c: nat)
    requires 16 * c < 0x1_0000_0000
    ensures var p := 0x1_0000_0000 * x + 16 * c + 1;
            p % 2 == 1 && p % 16 == 1 && p / 0x1_0000_0000 == x && p % 0x1_0000_0000 / 16 == c
  {
    var p := 0x1_0000_0000 * x + 16 * c + 1;
    Remainder(p, 2, 0x8000_0000 * x + 8 * c, 1);
    Remainder(p, 16, 0x1000_0000 * x + c, 1);
    Remainder(p, 0x1_0000_0000, x, 16 * c + 1);
    Remainder(16 * c + 1, 16, c, 1);
  }

  lemma TimedParts(x: nat, c: nat)
    requires 16 * c < 0x1000
    ensures var p := 0x1000 * x + 16 * c;
            p % 2 == 0 && p % 16 == 0 && p / 0x1000 == x && p % 0x1000 / 16 == c
  {
    var p := 0x1000 * x + 16 * c;
    Remainder(p, 2, 0x800 * x + 8 * c, 0);
    Remainder(p, 16, 0x100 * x + c, 0);
    Remainder(p, 0x1000, x, 16 * c);
    Remainder(16 * c, 16, c, 0);
  }

  /** One call: the next stamp fits its reading, the flag stays, and unless the flag is set just now the
      stamp is greater. n counts the stamps of the second. */
  lemma Step(prev: nat, t: nat, t': nat, n: nat, n': nat)
    requires Fits(prev, t, n) && t <= t'
    requires n' == (if t / WORD == t' / WORD then n + 1 else 1) && n' <= 0x1000_0000
    ensures var next := Issued(prev, t');
            Fits(next, t', n') && (Flag(prev) ==> Flag(next)) && (prev < next || (!Flag(prev) && Flag(next)))
  {
    SameTickSameSecond(prev, t, t');
    CounterShort(prev);
    IssuedIsNext(prev, t');
    if Flag(prev) { StepCounting(prev, t, t', n, n'); } else { StepTimed(prev, t, t', n, n'); }
  }

  lemma SameTickSameSecond(prev: nat, t: nat, t': nat)
    requires SameTime(prev, t)
    ensures SameTime(prev, t') ==> t / WORD == t' / WORD
  {
  }

  // ---- Whole runs

  /** The stamp of call i (1 is the first) on a clock with the readings rs. */
  ghost function Stamp(rs: seq<Time>, i: nat): nat
    requires i <= |rs|
  {
    if i == 0 then 0 else Issued(Stamp(rs, i - 1), rs[i - 1].Ticks())
  }

  ghost function Reading(rs: seq<Time>, i: nat): nat
    requires i <= |rs|
  {
    if i == 0 then 0 else rs[i - 1].Ticks()
  }

  /** How many of the first i stamps and of the 0 before them, which counts as one of the reading 0, are of
      second s. */
  ghost function InSecond(rs: seq<Time>, i: nat, s: nat): nat
    requires i <= |rs|
  {
    if i == 0 then Bit(s == 0) else InSecond(rs, i - 1, s) + if rs[i - 1].sec == s then 1 else 0
  }

  /** The clock does not run backwards, and no second has more than 2^28 stamps. */
  ghost predicate Run(rs: seq<Time>) {
    (forall i :: 0 <= i < |rs| ==> rs[i].Valid()) &&
    (forall i :: 0 <= i < |rs| ==> Reading(rs, i) <= Reading(rs, i + 1)) &&
    forall s: nat :: InSecond(rs, |rs|, s) <= 0x1000_0000
  }

  lemma {:induction false} CountGrows(rs: seq<Time>, i: nat, j: nat, s: nat)
    requires i <= j <= |rs|
    ensures InSecond(rs, i, s) <= InSecond(rs, j, s)
    decreases j
  {
    if i < j { CountGrows(rs, i, j - 1, s); }
  }

  lemma SecondOf(t: Time)
    requires t.Valid()
    ensures t.Ticks() / WORD == t.sec
  {
  }

  lemma {:induction false} RunFits(rs: seq<Time>, i: nat)
    requires Run(rs) && i <= |rs|
    ensures Fits(Stamp(rs, i), Reading(rs, i), InSecond(rs, i, Reading(rs, i) / WORD))
  {
    if i > 0 {
      RunFits(rs, i - 1);
      RunStep(rs, i - 1);
    } else {
      assert Fits(0, 0, 1);
    }
  }

  /** One call of a run, from a stamp that fits. */
  lemma RunStep(rs: seq<Time>, i: nat)
    requires Run(rs) && i < |rs|
    requires Fits(Stamp(rs, i), Reading(rs, i), InSecond(rs, i, Reading(rs, i) / WORD))
    ensures Fits(Stamp(rs, i + 1), Reading(rs, i + 1), InSecond(rs, i + 1, Reading(rs, i + 1) / WORD))
    ensures Flag(Stamp(rs, i)) ==> Flag(Stamp(rs, i + 1))
    ensures Stamp(rs, i) < Stamp(rs, i + 1) || (!Flag(Stamp(rs, i)) && Flag(Stamp(rs, i + 1)))
  {
    hide Fits, Issued, Flag;
    var s, s' := Reading(rs, i) / WORD, Reading(rs, i + 1) / WORD;
    SecondOf(rs[i]);
    CountGrows(rs, i + 1, |rs|, s');
    var n := InSecond(rs, i, s);
    var n' := if s == s' then n + 1 else 1;
    FitsMore(Stamp(rs, i), Reading(rs, i), n, InSecond(rs, i, s));
    Step(Stamp(rs, i), Reading(rs, i), Reading(rs, i + 1), n, n');
    FitsMore(Stamp(rs, i + 1), Reading(rs, i + 1), n', InSecond(rs, i + 1, s'));
  }

  lemma FitsMore(prev: nat, t: nat, n: nat, n': nat)
    requires Fits(prev, t, n) && n <= n'
    ensures Fits(prev, t, n')
  {
  }

  /** Once set the counter-only flag stays. */
  lemma {:induction false} FlagStays(rs: seq<Time>, i: nat, j: nat)
    requires Run(rs) && i <= j <= |rs| && Flag(Stamp(rs, i))
    ensures Flag(Stamp(rs, j))
    decreases j
  {
    hide Issued, Fits, Run, Flag;
    if i < j {
      FlagStays(rs, i, j - 1);
      RunFits(rs, j - 1);
      RunStep(rs, j - 1);
    }
  }

  /** Stamps rise at every call but the one that sets the flag. */
  lemma StampsRise(rs: seq<Time>, i: nat)
    requires Run(rs) && i < |rs| && Flag(Stamp(rs, i)) == Flag(Stamp(rs, i + 1))
    ensures Stamp(rs, i) < Stamp(rs, i + 1)
  {
    RunFits(rs, i);
    RunStep(rs, i);
  }

  lemma {:induction false} StampsRiseBetween(rs: seq<Time>, i: nat, j: nat)
    requires Run(rs) && i < j <= |rs| && Flag(Stamp(rs, i)) == Flag(Stamp(rs, j))
    ensures Stamp(rs, i) < Stamp(rs, j)
    decreases j
  {
    hide Flag, Issued, Run;
    if Flag(Stamp(rs, j - 1)) { FlagStays(rs, j - 1, j); }
    if Flag(Stamp(rs, i)) { FlagStays(rs, i, j - 1); }
    StampsRise(rs, j - 1);
    if i < j - 1 { StampsRiseBetween(rs, i, j - 1); }
  }

  /** No stamp is issued twice. */
  lemma StampsDiffer(rs: seq<Time>, i: nat, j: nat)
    requires Run(rs) && 0 < i < j <= |rs|
    ensures Stamp(rs, i) != Stamp(rs, j)
  {
    hide Run;
    if Flag(Stamp(rs, i)) == Flag(Stamp(rs, j)) {
      StampsRiseBetween(rs, i, j);
    }
  }

  // ---- What a stamp shows

  /** While the flag is not set a stamp shows its reading to the microsecond, above the counter. */
  lemma ShowsReading(prev: nat, t: Time)
    requires t.Valid() && !NextFlag(prev, t.Ticks())
    ensures Issued(prev, t.Ticks()) == t.sec * 0x1_0000_0000 + t.usec * 0x1000 + 16 * NextCounter(prev, t.Ticks())
    ensures Issued(prev, t.Ticks()) / 0x1000 == t.sec * 0x10_0000 + t.usec
  {
    hide Issued, Counter, SameTime;
    CounterShort(prev);
    IssuedIsNext(prev, t.Ticks());
    TimedParts(t.sec * 0x10_0000 + t.usec, 0);
    TimedParts(t.sec * 0x10_0000 + t.usec, NextCounter(prev, t.Ticks()));
  }

  /** How many calls right before call i have seen the same reading. */
  ghost function Repeats(rs: seq<Time>, i: nat): nat
    requires i <= |rs|
  {
    if i == 0 || Reading(rs, i - 1) != Reading(rs, i) then 0 else Repeats(rs, i - 1) + 1
  }

  /** Some reading up to call i was seen 257 times in a row. */
  ghost predicate Rushed(rs: seq<Time>, i: nat)
    requires i <= |rs|
  {
    exists j :: 0 < j <= i && Repeats(rs, j) >= 256
  }

  lemma RushedLater(rs: seq<Time>, i: nat)
    requires 0 < i <= |rs|
    ensures Rushed(rs, i) <==> Rushed(rs, i - 1) || Repeats(rs, i) >= 256
  {
    hide Repeats;
  }

  lemma RepeatsStep(rs: seq<Time>, i: nat)
    requires 0 < i <= |rs|
    ensures Repeats(rs, i) == if Reading(rs, i - 1) == Reading(rs, i) then Repeats(rs, i - 1) + 1 else 0
  {
  }

  lemma ReadingWhole(rs: seq<Time>, i: nat)
    requires i <= |rs|
    ensures Reading(rs, i) % 0x1000 == 0 && Reading(rs, i) == 0x1000 * (Reading(rs, i) / 0x1000)
  {
    if i > 0 { TimedParts(rs[i - 1].sec * 0x10_0000 + rs[i - 1].usec, 0); }
  }

  /** Counter and flag of a call after a stamp without the flag. */
  lemma NextTimed(t: nat, r: nat, t': nat)
    requires t % 0x1000 == t' % 0x1000 == 0 && r < 256
    ensures var prev := t + 16 * r;
            !Flag(prev) && NextCounter(prev, t') == (if t == t' then r + 1 else 0) &&
            (NextFlag(prev, t') <==> t == t' && r == 255)
  {
    TimedParts(t / 0x1000, r);
  }

  lemma {:induction false} Timed(rs: seq<Time>, i: nat)
    requires Run(rs) && i <= |rs| && !Rushed(rs, i)
    ensures Stamp(rs, i) == Reading(rs, i) + 16 * Repeats(rs, i) && Repeats(rs, i) < 256
  {
    hide Issued, NextFlag, NextCounter, Flag;
    if i > 0 {
      RushedLater(rs, i);
      Timed(rs, i - 1);
      ReadingWhole(rs, i - 1);
      ReadingWhole(rs, i);
      NextTimed(Reading(rs, i - 1), Repeats(rs, i - 1), Reading(rs, i));
      ShowsReading(Stamp(rs, i - 1), rs[i - 1]);
    }
  }

  /** The flag is set by the call that sees its reading for the 257th time in a row. */
  lemma {:induction false} FlagExactly(rs: seq<Time>, i: nat)
    requires Run(rs) && i <= |rs|
    ensures Flag(Stamp(rs, i)) <==> Rushed(rs, i)
  {
    hide Issued, NextFlag, NextCounter, Flag, Run, Repeats;
    if !Rushed(rs, i) {
      Timed(rs, i);
      ReadingWhole(rs, i);
      NextTimed(Reading(rs, i), Repeats(rs, i), 0);
    } else {
      RushedLater(rs, i);
      if Rushed(rs, i - 1) {
        FlagExactly(rs, i - 1);
        FlagStays(rs, i - 1, i);
      } else {
        Timed(rs, i - 1);
        ReadingWhole(rs, i - 1);
        ReadingWhole(rs, i);
        NextTimed(Reading(rs, i - 1), Repeats(rs, i - 1), Reading(rs, i));
        RepeatsStep(rs, i);
        FlagSet(Stamp(rs, i - 1), Reading(rs, i));
      }
    }
  }

  lemma FlagSet(prev: nat, t: nat)
    requires NextFlag(prev, t) && NextCounter(prev, t) == 256
    ensures Flag(Issued(prev, t))
  {
    hide Issued;
    IssuedIsNext(prev, t);
    CountingParts(t / WORD, 256);
  }

  /** Every stamp of a run: the reading in seconds and microseconds with the number of calls before it that
      saw the same, or, once a reading was seen 257 times, the second with the flag. */
  lemma StampExactly(rs: seq<Time>, i: nat)
    requires Run(rs) && 0 < i <= |rs|
    ensures var t, stamp := rs[i - 1], Stamp(rs, i);
            if Rushed(rs, i) then stamp / 0x1_0000_0000 == t.sec && stamp % 16 == 1
            else stamp == t.sec * 0x1_0000_0000 + t.usec * 0x1000 + 16 * Repeats(rs, i)
  {
    hide Issued, NextFlag, NextCounter;
    FlagExactly(rs, i);
    if Rushed(rs, i) {
      RunFits(rs, i);
      SecondOf(rs[i - 1]);
    } else {
      Timed(rs, i);
    }
  }

  // ---- When the counter is used up

  /** The first stamp of a second that begins with the flag set. */
  lemma FirstInSecond(prev: nat, t: nat, m: nat)
    requires Flag(prev) && prev / WORD != m && t / WORD == m
    ensures Issued(prev, t) == m * WORD + 1
  {
    IssuedIsNext(prev, t);
  }

  lemma LaterInSecond(t: nat, m: nat, c: nat)
    requires t / WORD == m && c < 0xFFF_FFFF
    ensures Issued(m * WORD + 16 * c + 1, t) == m * WORD + 16 * (c + 1) + 1
  {
    hide BitOr;
    CountingParts(m, c);
    IssuedIsNext(m * WORD + 16 * c + 1, t);
  }

  /** The carry out of the counter goes into the time by or: it is lost in an odd second, and makes an
      even one the next. */
  lemma UsedUpInSecond(t: nat, m: nat)
    requires t / WORD == m
    ensures Issued(m * WORD + 16 * 0xFFF_FFFF + 1, t) == (if m % 2 == 1 then m else m + 1) * WORD + 1
  {
    hide BitOr, Pow2;
    Powers();
    CountingParts(m, 0xFFF_FFFF);
    OrShifted(32, m, 1);
    OrOne(m);
    OrApart(32, m + 1 - m % 2, 1);
  }

  /** After i calls the flag is set and the last stamp is not of second m; the next n are made in it. */
  ghost predicate Counting(rs: seq<Time>, i: nat, m: nat, n: nat) {
    i + n <= |rs| && Flag(Stamp(rs, i)) && Stamp(rs, i) / WORD != m &&
    forall j :: i <= j < i + n ==> rs[j].Ticks() / WORD == m
  }

  /** The k-th stamp of such a second has the counter k - 1, for the first 2^28 of them. */
  lemma {:induction false} CountsUp(rs: seq<Time>, i: nat, m: nat, n: nat, k: nat)
    requires Counting(rs, i, m, n) && 0 < k <= n && k <= 0x1000_0000
    ensures Stamp(rs, i + k) == m * WORD + 16 * (k - 1) + 1 && Counter(Stamp(rs, i + k)) == k - 1
    decreases k
  {
    hide Issued, Flag;
    CountingParts(m, k - 1);
    var t := rs[i + k - 1].Ticks();
    if k == 1 {
      FirstInSecond(Stamp(rs, i), t, m);
    } else {
      CountsUp(rs, i, m, n, k - 1);
      LaterInSecond(t, m, k - 2);
    }
    CounterOf(m, k - 1);
  }

  lemma CounterOf(m: nat, c: nat)
    requires c < 0x1000_0000
    ensures Counter(m * WORD + 16 * c + 1) == c && Flag(m * WORD + 16 * c + 1)
  {
    CountingParts(m, c);
  }

  /** The next one is the first again in an odd second, and the first of the next in an even one, where
      the one after that is the first again. */
  lemma Overflow(rs: seq<Time>, i: nat, m: nat, n: nat)
    requires Counting(rs, i, m, n) && n > 0x1000_0000
    ensures Stamp(rs, i + 0x1000_0001) == (if m % 2 == 1 then m else m + 1) * WORD + 1
    ensures m % 2 == 0 && n > 0x1000_0001 ==> Stamp(rs, i + 0x1000_0002) == Stamp(rs, i + 1)
    ensures m % 2 == 1 ==> Stamp(rs, i + 0x1000_0001) == Stamp(rs, i + 1)
  {
    hide Issued, Flag, Counter;
    CountsUp(rs, i, m, n, 0x1000_0000);
    CountsUp(rs, i, m, n, 1);
    UsedUpInSecond(rs[i + 0x1000_0000].Ticks(), m);
    if m % 2 == 0 && n > 0x1000_0001 {
      CounterOf(m + 1, 0);
      CountingParts(m + 1, 0);
      FirstInSecond(Stamp(rs, i + 0x1000_0001), rs[i + 0x1000_0001].Ticks(), m);
    }
  }

  /** How many stamps a second that begins with the flag set can have before one comes again. */
  function Limit(m: nat): nat { 0x1000_0000 + (if m % 2 == 1 then 0 else 1) }

  lemma WithinLimit(rs: seq<Time>, i: nat, m: nat, n: nat, j: nat, k: nat)
    requires Counting(rs, i, m, n) && n <= Limit(m) && 0 < j < k <= n
    ensures Stamp(rs, i + j) != Stamp(rs, i + k)
  {
    hide Issued, Flag, Counter;
    CountsUp(rs, i, m, n, j);
    if k <= 0x1000_0000 {
      CountsUp(rs, i, m, n, k);
    } else {
      Overflow(rs, i, m, n);
    }
  }

  /** The stamps of a second that begins with the flag set are all different if and only if there are at
      most 2^28 of them, or one more in an even second. */
  lemma UsedUpRepeats(rs: seq<Time>, i: nat, m: nat, n: nat)
    requires Counting(rs, i, m, n)
    ensures (forall j, k :: i < j < k <= i + n ==> Stamp(rs, j) != Stamp(rs, k)) <==> n <= Limit(m)
  {
    hide Issued, Flag, Counter;
    if n <= Limit(m) {
      forall j, k | i < j < k <= i + n ensures Stamp(rs, j) != Stamp(rs, k) {
        WithinLimit(rs, i, m, n, j - i, k - i);
      }
    } else {
      Overflow(rs, i, m, n);
      assert Stamp(rs, i + 1) == Stamp(rs, i + Limit(m) + 1);
    }
  }

  lemma {:induction false} StampPrefix(rs: seq<Time>, i: nat, j: nat)
    requires j <= i <= |rs|
    ensures Stamp(rs[..i], j) == Stamp(rs, j) && Reading(rs[..i], j) == Reading(rs, j)
  {
    if j > 0 { StampPrefix(rs, i, j - 1); }
  }

  /** A run that has set its flag enters each later second like that. */
  lemma SecondBegins(rs: seq<Time>, i: nat, m: nat, n: nat)
    requires i + n <= |rs| && Run(rs[..i]) && Flag(Stamp(rs, i)) && Reading(rs, i) / WORD < m
    requires forall j :: i <= j < i + n ==> rs[j].Valid() && rs[j].sec == m
    ensures Counting(rs, i, m, n)
  {
    StampPrefix(rs, i, i);
    RunFits(rs[..i], i);
    forall j | i <= j < i + n ensures rs[j].Ticks() / WORD == m {
      SecondOf(rs[j]);
    }
  }

  /** 257 calls within a microsecond set the flag. */
  lemma {:induction false} TickStamps(rs: seq<Time>, k: nat)
    requires 0 < k <= 257 && k <= |rs| && forall j :: 0 <= j < k ==> rs[j] == Time(1, 0)
    ensures Stamp(rs, k) == WORD + 16 * (k - 1) + Bit(k == 257)
  {
    hide Issued;
    if k > 1 { TickStamps(rs, k - 1); }
    OneTick(if k == 1 then 0 else WORD + 16 * (k - 2), k);
  }

  lemma OneTick(prev: nat, k: nat)
    requires 0 < k <= 257 && prev == if k == 1 then 0 else WORD + 16 * (k - 2)
    ensures Issued(prev, WORD) == WORD + 16 * (k - 1) + Bit(k == 257)
  {
    hide Issued, BitOr;
    TickCounter(prev, k);
    IssuedIsNext(prev, WORD);
  }

  lemma TickCounter(prev: nat, k: nat)
    requires 0 < k <= 257 && prev == if k == 1 then 0 else WORD + 16 * (k - 2)
    ensures !Flag(prev) && NextCounter(prev, WORD) == k - 1
  {
    if k == 1 {
      TimedParts(0, 0);
    } else {
      TimedParts(0x10_0000, k - 2);
    }
  }

  lemma {:induction false} AllInSecond(rs: seq<Time>, i: nat, s: nat)
    requires i <= |rs| && forall j :: 0 <= j < i ==> rs[j] == Time(1, 0)
    ensures InSecond(rs, i, s) <= i + 1
  {
    if i > 0 { AllInSecond(rs, i - 1, s); }
  }

  /** A clock whose third second is read once too often: the stamp of its first call comes again. */
  lemma RepeatReached()
    ensures var rs := seq(257, i => Time(1, 0)) + seq(0x1000_0001, i => Time(3, 0));
            Run(rs[..257]) && Counting(rs, 257, 3, 0x1000_0001) && Stamp(rs, 258) == Stamp(rs, 0x1000_0102)
  {
    hide Issued;
    var start := seq(257, i => Time(1, 0));
    var rs := start + seq(0x1000_0001, i => Time(3, 0));
    assert rs[..257] == start;
    forall s: nat ensures InSecond(start, 257, s) <= 0x1000_0000 {
      AllInSecond(start, 257, s);
    }
    TickStamps(rs, 257);
    SecondBegins(rs, 257, 3, 0x1000_0001);
    Overflow(rs, 257, 3, 0x1000_0001);
  }
}
